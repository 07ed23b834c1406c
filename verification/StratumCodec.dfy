/** lab/auxpow/stratum_codec.py, and the second header builder, `block_header` of
    scripts/prism_shipped_image_lane.py. */
module StratumCodec {
  import opened Common
  import opened Results

  datatype Error = BadLength | OddLength | NotHex | NotWords | BadMerkleRoot | BadInteger | OutsideMask

  // ----- hexadecimal text

  predicate IsDigit(c: char) {
    '0' <= c <= '9' || 'a' <= c <= 'f' || 'A' <= c <= 'F'
  }

  function Digit(c: char): (d: nat)
    requires IsDigit(c)
    ensures d < 16
  {
    if c <= '9' then (c - '0') as int else if c <= 'F' then (c - 'A') as int + 10 else (c - 'a') as int + 10
  }

  function HexChar(d: nat): (c: char)
    requires d < 16
    ensures IsDigit(c) && Digit(c) == d && !('A' <= c <= 'F')
  {
    if d < 10 then '0' + d as char else 'a' + (d - 10) as char
  }

  predicate IsSpace(c: char) {
    c == ' ' || '\t' <= c <= '\r'
  }

  predicate Plain(s: string) {
    forall i :: 0 <= i < |s| ==> IsDigit(s[i])
  }

  /** `bytes.fromhex`, which skips white space between bytes. */
  function FromHex(s: string): Option<Bytes> {
    if s == "" then Some([])
    else if IsSpace(s[0]) then FromHex(s[1..])
    else if |s| >= 2 && IsDigit(s[0]) && IsDigit(s[1]) then Put(16 * Digit(s[0]) + Digit(s[1]), FromHex(s[2..]))
    else None
  }

  function Put(b: Byte, rest: Option<Bytes>): Option<Bytes> {
    if rest.None? then None else Some([b] + rest.value)
  }

  lemma PutAppend(b: Byte, first: Bytes, last: Bytes)
    ensures Put(b, Some(first + last)) == Some(Put(b, Some(first)).value + last)
  {
    assert [b] + (first + last) == ([b] + first) + last;
  }

  /** `bytes.hex` */
  function ToHex(b: Bytes): (s: string)
    ensures |s| == 2 * |b| && Plain(s) && forall i :: 0 <= i < |s| ==> !('A' <= s[i] <= 'F')
  {
    if b == [] then "" else [HexChar(b[0] / 16), HexChar(b[0] % 16)] + ToHex(b[1..])
  }

  lemma HexByte(high: char, low: char, rest: string)
    requires IsDigit(high) && IsDigit(low)
    ensures FromHex([high, low] + rest) == Put(16 * Digit(high) + Digit(low), FromHex(rest))
  {
    var s := [high, low] + rest;
    assert s[0] == high && s[1] == low && s[2..] == rest;
  }

  lemma {:induction false} HexRoundTrip(b: Bytes)
    ensures FromHex(ToHex(b)) == Some(b)
  {
    if b != [] {
      HexRoundTrip(b[1..]);
      HexByte(HexChar(b[0] / 16), HexChar(b[0] % 16), ToHex(b[1..]));
      assert b == [b[0]] + b[1..];
    }
  }

  lemma TailOf<T>(a: seq<T>, b: seq<T>, n: nat)
    requires n <= |a|
    ensures (a + b)[n..] == a[n..] + b
    ensures forall i :: 0 <= i < n ==> (a + b)[i] == a[i]
  {
  }

  lemma {:induction false} FromHexAppend(a: string, b: string)
    requires FromHex(a).Some? && FromHex(b).Some?
    ensures FromHex(a + b) == Some(FromHex(a).value + FromHex(b).value)
  {
    if a == "" {
      assert a + b == b;
      assert [] + FromHex(b).value == FromHex(b).value;
    } else if IsSpace(a[0]) {
      FromHexAppend(a[1..], b);
      TailOf(a, b, 1);
    } else {
      FromHexAppend(a[2..], b);
      TailOf(a, b, 2);
      PutAppend(16 * Digit(a[0]) + Digit(a[1]), FromHex(a[2..]).value, FromHex(b).value);
    }
  }

  /** Text holds at most one byte for two characters, and that many exactly when it is all digits. */
  lemma {:induction false} FromHexSize(s: string)
    ensures FromHex(s).Some? ==> 2 * |FromHex(s).value| <= |s|
    ensures FromHex(s).Some? && 2 * |FromHex(s).value| == |s| <==> Plain(s) && |s| % 2 == 0
  {
    if s == "" {
    } else if IsSpace(s[0]) {
      FromHexSize(s[1..]);
      assert !IsDigit(s[0]);
    } else if |s| == 1 || !IsDigit(s[0]) || !IsDigit(s[1]) {
      assert FromHex(s).None?;
    } else {
      FromHexSize(s[2..]);
      PlainFrom(s);
    }
  }

  lemma PlainFrom(s: string)
    requires |s| >= 2 && IsDigit(s[0]) && IsDigit(s[1])
    ensures Plain(s) <==> Plain(s[2..])
  {
    if Plain(s[2..]) {
      forall i | 0 <= i < |s|
        ensures IsDigit(s[i])
      {
        assert i >= 2 ==> s[i] == s[2..][i - 2];
      }
    }
  }

  function LowerChar(c: char): (r: char)
    ensures IsDigit(r) <==> IsDigit(c)
    ensures IsSpace(r) <==> IsSpace(c)
    ensures IsDigit(c) ==> Digit(r) == Digit(c)
    ensures !('A' <= r <= 'Z')
  {
    if 'A' <= c <= 'Z' then 'a' + (c - 'A') else c
  }

  function Lower(s: string): (r: string)
    ensures |r| == |s| && forall i :: 0 <= i < |s| ==> r[i] == LowerChar(s[i])
  {
    if s == "" then "" else [LowerChar(s[0])] + Lower(s[1..])
  }

  lemma LowerFrom(s: string, n: nat)
    requires n <= |s|
    ensures Lower(s)[n..] == Lower(s[n..])
  {
  }

  lemma {:induction false} LowerHex(s: string)
    ensures FromHex(Lower(s)) == FromHex(s)
  {
    if s != "" {
      if IsSpace(s[0]) {
        LowerFrom(s, 1);
        LowerHex(s[1..]);
      } else if |s| >= 2 {
        LowerFrom(s, 2);
        LowerHex(s[2..]);
      }
    }
  }

  /** `validate_hex`: `chars` is the expected length, 0 for any. */
  function Validate(s: string, chars: nat): (r: Result<string, Error>)
    ensures r.Ok? <==> (chars == 0 || |s| == chars) && |s| % 2 == 0 && FromHex(s).Some?
    ensures r.Ok? ==> |r.value| == |s| && FromHex(r.value) == FromHex(s)
  {
    LowerHex(s);
    if chars != 0 && |s| != chars then Err(BadLength)
    else if |s| % 2 != 0 then Err(OddLength)
    else if FromHex(s).None? then Err(NotHex)
    else Ok(Lower(s))
  }

  // ----- words

  function Reverse(b: Bytes): (r: Bytes)
    ensures |r| == |b| && forall i :: 0 <= i < |b| ==> r[i] == b[|b| - 1 - i]
  {
    if b == [] then [] else Reverse(b[1..]) + [b[0]]
  }

  function Flip(data: Bytes): (r: Bytes)
    requires |data| % 4 == 0
    ensures |r| == |data|
  {
    if data == [] then [] else Reverse(data[..4]) + Flip(data[4..])
  }

  /** `flip_word_bytes` */
  function FlipWordBytes(data: Bytes): Result<Bytes, Error> {
    if |data| % 4 != 0 then Err(NotWords) else Ok(Flip(data))
  }

  lemma {:induction false} FlipTwice(data: Bytes)
    requires |data| % 4 == 0
    ensures Flip(Flip(data)) == data
  {
    if data != [] {
      FlipTwice(data[4..]);
      var flipped := Flip(data);
      assert flipped[..4] == Reverse(data[..4]) && flipped[4..] == Flip(data[4..]);
      assert Reverse(flipped[..4]) == data[..4];
      assert data == data[..4] + data[4..];
    }
  }

  /** Flipping words is its own inverse. */
  lemma FlipInvolution(data: Bytes)
    ensures FlipWordBytes(data).Ok? ==> FlipWordBytes(FlipWordBytes(data).value) == Ok(data)
    ensures FlipWordBytes(data).Ok? <==> |data| % 4 == 0
  {
    if |data| % 4 == 0 {
      FlipTwice(data);
    }
  }

  lemma {:induction false} FlipAppend(a: Bytes, b: Bytes)
    requires |a| % 4 == 0 && |b| % 4 == 0
    ensures Flip(a + b) == Flip(a) + Flip(b)
  {
    if a == [] {
      assert a + b == b;
    } else {
      FlipAppend(a[4..], b);
      TailOf(a, b, 4);
      assert (a + b)[..4] == a[..4];
      Associate(Reverse(a[..4]), Flip(a[4..]), Flip(b));
    }
  }

  lemma FlipWord(a: Bytes)
    requires |a| == 4
    ensures Flip(a) == Reverse(a)
  {
    assert a[..4] == a && a[4..] == [];
  }

  /** `stratum_prevhash_from_display_hash` */
  function StratumPrevhash(display: string): Result<string, Error> {
    var hex :- Validate(display, 64);
    var flipped :- FlipWordBytes(Reverse(FromHex(hex).value));
    Ok(ToHex(flipped))
  }

  /** A display hash sent through notify serializes back to its bytes reversed. */
  lemma PrevhashRoundTrip(display: string)
    requires StratumPrevhash(display).Ok?
    ensures FromHex(StratumPrevhash(display).value).Some?
    ensures FlipWordBytes(FromHex(StratumPrevhash(display).value).value) == Ok(Reverse(FromHex(display).value))
    ensures |StratumPrevhash(display).value| == 64 <==> Plain(display)
  {
    var serialized := Reverse(FromHex(display).value);
    HexRoundTrip(Flip(serialized));
    FlipTwice(serialized);
    FromHexSize(display);
  }

  // ----- headers

  /** The text fields of a header: `prevhash` is in the words of a notify, or as displayed. */
  datatype Fields = Fields(version: string, prevhash: string, ntime: string, nbits: string, nonce: string) {
    predicate Accepted() {
      Valid(version, 8) && Valid(prevhash, 64) && Valid(ntime, 8) && Valid(nbits, 8) && Valid(nonce, 8)
    }

    /** Every field is digits only, so that it holds all its bytes. */
    predicate AllDigits() {
      && |version| == |ntime| == |nbits| == |nonce| == 8 && |prevhash| == 64
      && Plain(version) && Plain(prevhash) && Plain(ntime) && Plain(nbits) && Plain(nonce)
    }
  }

  predicate Valid(s: string, chars: nat) {
    |s| == chars && FromHex(s).Some?
  }

  function Check(f: Fields): (r: Result<Fields, Error>)
    ensures r.Ok? <==> f.Accepted()
    ensures r.Ok? ==> r.value.Accepted()
    ensures r.Ok? ==> Bytewise(r.value) == Bytewise(f)
  {
    var version :- Validate(f.version, 8);
    var prevhash :- Validate(f.prevhash, 64);
    var ntime :- Validate(f.ntime, 8);
    var nbits :- Validate(f.nbits, 8);
    var nonce :- Validate(f.nonce, 8);
    Ok(Fields(version, prevhash, ntime, nbits, nonce))
  }

  datatype FieldBytes = FieldBytes(version: Bytes, prevhash: Bytes, ntime: Bytes, nbits: Bytes, nonce: Bytes) {
    predicate Full() {
      |version| == |ntime| == |nbits| == |nonce| == 4 && |prevhash| == 32
    }
  }

  function Bytewise(f: Fields): FieldBytes
    requires f.Accepted()
  {
    FieldBytes(FromHex(f.version).value, FromHex(f.prevhash).value, FromHex(f.ntime).value, FromHex(f.nbits).value,
               FromHex(f.nonce).value)
  }

  /** `serialize_header_from_stratum_fields` */
  function SerializeHeader(f: Fields, root: Bytes): Result<Bytes, Error> {
    var g :- Check(f);
    if |root| != 32 then Err(BadMerkleRoot)
    else
      match FromHex(Text(g, root))
      case None => Err(NotHex)
      case Some(display) => FlipWordBytes(display)
  }

  function Text(f: Fields, root: Bytes): string
    requires |root| == 32
  {
    f.version + (f.prevhash + (ToHex(Flip(root)) + (f.ntime + (f.nbits + f.nonce))))
  }

  /** The bytes of the serializer's text, before their words are flipped. */
  function Joined(f: FieldBytes, root: Bytes): Bytes {
    f.version + (f.prevhash + (root + (f.ntime + (f.nbits + f.nonce))))
  }

  /** And after. */
  function Layout(f: FieldBytes, root: Bytes): Bytes
    requires |f.prevhash| % 4 == 0
  {
    Reverse(f.version) + (Flip(f.prevhash) + (root + (Reverse(f.ntime) + (Reverse(f.nbits) + Reverse(f.nonce)))))
  }

  /** The fields make whole words together. */
  predicate WholeWords(f: FieldBytes) {
    (|f.version| + |f.prevhash| + |f.ntime| + |f.nbits| + |f.nonce|) % 4 == 0
  }

  datatype Variant = StratumRaw | SerializedRaw | DisplayRaw | StratumRevFields | SerializedRevFields | DisplayRevFields

  /** One entry of `diagnostic_header_variants`. */
  function DiagnosticHeader(variant: Variant, f: Fields, display: string, root: Bytes): Result<Bytes, Error> {
    var g :- Check(f);
    var d :- Validate(display, 64);
    if |root| != 32 then Err(BadMerkleRoot)
    else
      var b := Bytewise(g);
      var previous := match variant
                      case StratumRaw => b.prevhash
                      case StratumRevFields => b.prevhash
                      case SerializedRaw => Reverse(FromHex(d).value)
                      case SerializedRevFields => Reverse(FromHex(d).value)
                      case DisplayRaw => FromHex(d).value
                      case DisplayRevFields => FromHex(d).value;
      if variant.StratumRaw? || variant.SerializedRaw? || variant.DisplayRaw? then
        Ok(b.version + previous + root + b.ntime + b.nbits + b.nonce)
      else
        Ok(Reverse(b.version) + previous + root + Reverse(b.ntime) + Reverse(b.nbits) + Reverse(b.nonce))
  }

  lemma TextBytes(f: Fields, root: Bytes)
    requires f.Accepted() && |root| == 32
    ensures FromHex(Text(f, root)) == Some(Joined(Bytewise(f), Flip(root)))
  {
    HexRoundTrip(Flip(root));
    FromHexAppend(f.nbits, f.nonce);
    FromHexAppend(f.ntime, f.nbits + f.nonce);
    FromHexAppend(ToHex(Flip(root)), f.ntime + (f.nbits + f.nonce));
    FromHexAppend(f.prevhash, ToHex(Flip(root)) + (f.ntime + (f.nbits + f.nonce)));
    FromHexAppend(f.version, f.prevhash + (ToHex(Flip(root)) + (f.ntime + (f.nbits + f.nonce))));
  }

  lemma {:induction false} FlipJoined(f: FieldBytes, root: Bytes)
    requires f.Full() && |root| == 32
    ensures Flip(Joined(f, Flip(root))) == Layout(f, root)
  {
    FlipTwice(root);
    FlipWord(f.version);
    FlipWord(f.ntime);
    FlipWord(f.nbits);
    FlipWord(f.nonce);
    var last := f.nbits + f.nonce;
    FlipAppend(f.nbits, f.nonce);
    FlipAppend(f.ntime, last);
    var times := f.ntime + last;
    FlipAppend(Flip(root), times);
    var hashed := Flip(root) + times;
    FlipAppend(f.prevhash, hashed);
    FlipAppend(f.version, f.prevhash + hashed);
  }

  /** What the serializer returns of fields it accepts. */
  lemma SerializeAccepted(f: Fields, root: Bytes)
    requires f.Accepted() && |root| == 32
    ensures SerializeHeader(f, root) == FlipWordBytes(Joined(Bytewise(f), Flip(root)))
  {
    TextBytes(Check(f).value, root);
  }

  lemma JoinedSize(f: FieldBytes, root: Bytes)
    ensures |Joined(f, root)| == |f.version| + |f.prevhash| + |root| + |f.ntime| + |f.nbits| + |f.nonce|
  {
  }

  lemma WordsJoined(f: FieldBytes, root: Bytes)
    requires |root| == 32
    ensures |Joined(f, root)| % 4 == 0 <==> WholeWords(f)
  {
    JoinedSize(f, root);
  }

  /** The serializer accepts exactly valid fields and a 32-byte root that make whole words together. */
  lemma SerializeExactly(f: Fields, root: Bytes)
    ensures SerializeHeader(f, root).Ok? <==> f.Accepted() && |root| == 32 && WholeWords(Bytewise(f))
  {
    if f.Accepted() && |root| == 32 {
      SerializeAccepted(f, root);
      WordsJoined(Bytewise(f), Flip(root));
    }
  }

  lemma FieldSize(s: string, chars: nat)
    requires Valid(s, chars)
    ensures 2 * |FromHex(s).value| <= chars && (2 * |FromHex(s).value| == chars <==> Plain(s) && chars % 2 == 0)
  {
    FromHexSize(s);
  }

  lemma PlainField(s: string, chars: nat)
    requires chars % 2 == 0 && |s| == chars && Plain(s)
    ensures Valid(s, chars) && 2 * |FromHex(s).value| == chars
  {
    FromHexSize(s);
  }

  /** Fields hold all their bytes exactly when they are digits only. */
  lemma FullFields(f: Fields)
    ensures f.AllDigits() <==> f.Accepted() && Bytewise(f).Full()
    ensures f.Accepted() ==> var b := Bytewise(f);
            |b.version| <= 4 && |b.prevhash| <= 32 && |b.ntime| <= 4 && |b.nbits| <= 4 && |b.nonce| <= 4
  {
    if f.Accepted() {
      FieldSize(f.version, 8);
      FieldSize(f.prevhash, 64);
      FieldSize(f.ntime, 8);
      FieldSize(f.nbits, 8);
      FieldSize(f.nonce, 8);
    } else if f.AllDigits() {
      PlainField(f.version, 8);
      PlainField(f.prevhash, 64);
      PlainField(f.ntime, 8);
      PlainField(f.nbits, 8);
      PlainField(f.nonce, 8);
    }
  }

  // ----- the bytes of a header, one by one

  /** The `k`-th byte that digits write. */
  function ByteAt(digits: string, k: nat): Byte
    requires Plain(digits) && 2 * k + 1 < |digits|
  {
    16 * Digit(digits[2 * k]) + Digit(digits[2 * k + 1])
  }

  lemma {:induction false} PlainBytes(s: string, k: nat)
    requires Plain(s) && |s| % 2 == 0 && 2 * k + 1 < |s|
    ensures FromHex(s).Some? && 2 * |FromHex(s).value| == |s| && FromHex(s).value[k] == ByteAt(s, k)
  {
    FromHexSize(s);
    FromHexSize(s[2..]);
    if k > 0 {
      PlainBytes(s[2..], k - 1);
    }
  }

  /** Where a byte comes from when each word of four is flipped. */
  function FlippedFrom(i: nat): nat {
    4 * (i / 4) + 3 - i % 4
  }

  lemma FlippedFromNext(i: nat)
    requires i >= 4
    ensures FlippedFrom(i) == 4 + FlippedFrom(i - 4)
  {
  }

  lemma {:induction false} FlipAt(data: Bytes, i: nat)
    requires |data| % 4 == 0 && i < |data|
    ensures FlippedFrom(i) < |data| && Flip(data)[i] == data[FlippedFrom(i)]
  {
    if i < 4 {
      assert Reverse(data[..4])[i] == data[..4][3 - i];
    } else {
      var rest := data[4..];
      FlipAt(rest, i - 4);
      FlippedFromNext(i);
      assert Flip(data) == Reverse(data[..4]) + Flip(rest);
      assert rest[FlippedFrom(i - 4)] == data[4 + FlippedFrom(i - 4)];
    }
  }

  /** From `at` on, the four bytes of the field, last byte first. */
  predicate HoldsReversed(header: Bytes, at: nat, field: string) {
    && Plain(field) && |field| == 8 && at + 4 <= |header|
    && header[at] == ByteAt(field, 3) && header[at + 1] == ByteAt(field, 2)
    && header[at + 2] == ByteAt(field, 1) && header[at + 3] == ByteAt(field, 0)
  }

  predicate HasByte(header: Bytes, at: nat, field: string, k: nat) {
    Plain(field) && at < |header| && 2 * k + 1 < |field| && header[at] == ByteAt(field, k)
  }

  /** The `i`-th byte from `at` on, when each word of four holds its last byte first. */
  predicate FlippedHas(header: Bytes, at: nat, field: string, i: nat) {
    HasByte(header, at + i, field, 4 * (i / 4) + 3 - i % 4)
  }

  /** From `at` on, the field's bytes, each word of four last byte first. */
  predicate HoldsFlipped(header: Bytes, at: nat, field: string) {
    Plain(field) && |field| == 64 && forall i: nat :: i < 32 ==> FlippedHas(header, at, field, i)
  }

  /** The 80 bytes a miner hashes: the version, the previous hash, the Merkle root, the time, the
      difficulty bits and the nonce. */
  predicate IsHeader(header: Bytes, f: Fields, root: Bytes) {
    && |header| == 80
    && HoldsReversed(header, 0, f.version)
    && HoldsFlipped(header, 4, f.prevhash)
    && header[36..68] == root
    && HoldsReversed(header, 68, f.ntime)
    && HoldsReversed(header, 72, f.nbits)
    && HoldsReversed(header, 76, f.nonce)
  }

  lemma ReversedHeld(header: Bytes, at: nat, field: string)
    requires Plain(field) && |field| == 8 && FromHex(field).Some? && at + 4 <= |header|
    requires header[at..at + 4] == Reverse(FromHex(field).value)
    ensures HoldsReversed(header, at, field)
  {
    PlainBytes(field, 0);
    PlainBytes(field, 1);
    PlainBytes(field, 2);
    PlainBytes(field, 3);
    var four := header[at..at + 4];
    assert four[0] == header[at] && four[1] == header[at + 1] && four[2] == header[at + 2] && four[3] == header[at + 3];
  }

  lemma FlippedHeld(header: Bytes, at: nat, field: string)
    requires Plain(field) && |field| == 64 && FromHex(field).Some? && |FromHex(field).value| == 32
    requires at + 32 <= |header| && header[at..at + 32] == Flip(FromHex(field).value)
    ensures HoldsFlipped(header, at, field)
  {
    forall i: nat | i < 32
      ensures FlippedHas(header, at, field, i)
    {
      FlipAt(FromHex(field).value, i);
      PlainBytes(field, FlippedFrom(i));
      assert header[at..at + 32][i] == header[at + i];
    }
  }

  /** Where the parts of a header built of whole fields are. */
  lemma PartsOf(version: Bytes, previous: Bytes, root: Bytes, ntime: Bytes, nbits: Bytes, nonce: Bytes, header: Bytes)
    requires |version| == |ntime| == |nbits| == |nonce| == 4 && |previous| == |root| == 32
    requires header == version + (previous + (root + (ntime + (nbits + nonce))))
             || header == version + previous + root + ntime + nbits + nonce
    ensures |header| == 80 && header[0..4] == version && header[4..36] == previous && header[36..68] == root
    ensures header[68..72] == ntime && header[72..76] == nbits && header[76..80] == nonce
  {
  }

  lemma BuiltHeader(f: Fields, root: Bytes, header: Bytes)
    requires f.AllDigits() && f.Accepted() && Bytewise(f).Full() && |root| == 32 && |header| == 80
    requires header[0..4] == Reverse(Bytewise(f).version) && header[4..36] == Flip(Bytewise(f).prevhash)
    requires header[36..68] == root && header[68..72] == Reverse(Bytewise(f).ntime)
    requires header[72..76] == Reverse(Bytewise(f).nbits) && header[76..80] == Reverse(Bytewise(f).nonce)
    ensures IsHeader(header, f, root)
  {
    ReversedHeld(header, 0, f.version);
    FlippedHeld(header, 4, f.prevhash);
    ReversedHeld(header, 68, f.ntime);
    ReversedHeld(header, 72, f.nbits);
    ReversedHeld(header, 76, f.nonce);
  }

  lemma SamePart(a: Bytes, b: Bytes, from: nat, end: nat, i: nat)
    requires |a| == |b| && from <= i < end <= |a| && a[from..end] == b[from..end]
    ensures a[i] == b[i]
  {
    assert a[from..end][i - from] == b[from..end][i - from];
  }

  /** Two headers of the same digits and root are the same bytes. */
  lemma HeaderDetermined(a: Bytes, b: Bytes, f: Fields, root: Bytes)
    requires IsHeader(a, f, root) && IsHeader(b, f, root)
    ensures a == b
  {
    forall i | 0 <= i < 80
      ensures a[i] == b[i]
    {
      if 4 <= i < 36 {
        assert FlippedHas(a, 4, f.prevhash, i - 4) && FlippedHas(b, 4, f.prevhash, i - 4);
      } else if 36 <= i < 68 {
        SamePart(a, b, 36, 68, i);
      }
    }
  }

  lemma CanonicalLayout(f: Fields, root: Bytes)
    requires f.AllDigits() && |root| == 32
    ensures f.Accepted() && Bytewise(f).Full() && SerializeHeader(f, root) == Ok(Layout(Bytewise(f), root))
  {
    FullFields(f);
    SerializeAccepted(f, root);
    FlipJoined(Bytewise(f), root);
  }

  lemma LayoutIsHeader(f: Fields, root: Bytes)
    requires f.AllDigits() && f.Accepted() && Bytewise(f).Full() && |root| == 32
    ensures IsHeader(Layout(Bytewise(f), root), f, root)
  {
    var b := Bytewise(f);
    PartsOf(Reverse(b.version), Flip(b.prevhash), root, Reverse(b.ntime), Reverse(b.nbits), Reverse(b.nonce),
            Layout(b, root));
    BuiltHeader(f, root, Layout(b, root));
  }

  /** Of fields of digits only the serializer makes the header they write. */
  lemma CanonicalBytes(f: Fields, root: Bytes)
    requires f.AllDigits() && |root| == 32
    ensures SerializeHeader(f, root).Ok? && IsHeader(SerializeHeader(f, root).value, f, root)
  {
    CanonicalLayout(f, root);
    LayoutIsHeader(f, root);
  }

  /** The canonical header is 80 bytes exactly when every field is digits only: `bytes.fromhex` also
      takes white space, and then a field is short. */
  lemma CanonicalIsFull(f: Fields, root: Bytes)
    ensures var header := SerializeHeader(f, root);
            header.Ok? && |header.value| == 80 <==> f.AllDigits() && |root| == 32
  {
    FullFields(f);
    if f.Accepted() && |root| == 32 {
      SerializeAccepted(f, root);
      JoinedSize(Bytewise(f), Flip(root));
    }
  }

  function Repeat(c: char, n: nat): (s: string)
    ensures |s| == n && forall i :: 0 <= i < n ==> s[i] == c
  {
    seq(n, i => c)
  }

  lemma {:induction false} SpacesAreEmpty(n: nat)
    ensures FromHex(Repeat(' ', n)) == Some([])
  {
    if n > 0 {
      assert Repeat(' ', n)[1..] == Repeat(' ', n - 1);
      SpacesAreEmpty(n - 1);
    }
  }

  /** White space in the place of a nonce is accepted, and leaves the header four bytes short. */
  lemma EmptyNonce(f: Fields, blank: string, root: Bytes)
    requires f.AllDigits() && |root| == 32 && |blank| == 8 && FromHex(blank) == Some([])
    ensures var header := SerializeHeader(f.(nonce := blank), root); header.Ok? && |header.value| == 76
  {
    var g := f.(nonce := blank);
    FullFields(f);
    SerializeAccepted(g, root);
    JoinedSize(Bytewise(g), Flip(root));
  }

  /** An input that shows it: a header of zeros with a nonce of eight spaces. */
  lemma SpacesShorten(root: Bytes)
    requires |root| == 32
    ensures var zeros := Repeat('0', 8);
            var header := SerializeHeader(Fields(zeros, Repeat('0', 64), zeros, zeros, Repeat(' ', 8)), root);
            header.Ok? && |header.value| == 76
  {
    var zeros := Repeat('0', 8);
    SpacesAreEmpty(8);
    EmptyNonce(Fields(zeros, Repeat('0', 64), zeros, zeros, zeros), Repeat(' ', 8), root);
  }

  /** The fields a notify for a block on `display` sends. */
  function Notified(f: Fields, display: string): Fields
    requires StratumPrevhash(display).Ok?
  {
    f.(prevhash := StratumPrevhash(display).value)
  }

  /** From `at` on, the bytes of the field as it is written. */
  predicate HoldsPlain(header: Bytes, at: nat, field: string) {
    Plain(field) && |field| % 2 == 0 && forall i: nat :: i < |field| / 2 ==> PlainHas(header, at, field, i)
  }

  predicate PlainHas(header: Bytes, at: nat, field: string, i: nat) {
    HasByte(header, at + i, field, i)
  }

  /** From `at` on, all of the field's bytes, last byte first. */
  predicate HoldsBackwards(header: Bytes, at: nat, field: string) {
    Plain(field) && |field| == 64 && forall i: nat :: i < 32 ==> BackwardsHas(header, at, field, i)
  }

  predicate BackwardsHas(header: Bytes, at: nat, field: string, i: nat)
    requires i < 32
  {
    HasByte(header, at + i, field, 31 - i)
  }

  predicate HoldsHash(variant: Variant, header: Bytes, f: Fields, display: string) {
    match variant
    case StratumRaw => HoldsPlain(header, 4, f.prevhash)
    case SerializedRaw => HoldsBackwards(header, 4, display)
    case DisplayRaw => HoldsPlain(header, 4, display)
    case StratumRevFields => HoldsPlain(header, 4, f.prevhash)
    case SerializedRevFields => HoldsBackwards(header, 4, display)
    case DisplayRevFields => HoldsPlain(header, 4, display)
  }

  /** What each diagnostic header holds. */
  predicate IsVariant(variant: Variant, header: Bytes, f: Fields, display: string, root: Bytes) {
    && |header| == 80 && header[36..68] == root
    && HoldsHash(variant, header, f, display)
    && if variant.StratumRaw? || variant.SerializedRaw? || variant.DisplayRaw? then
         && HoldsPlain(header, 0, f.version) && HoldsPlain(header, 68, f.ntime)
         && HoldsPlain(header, 72, f.nbits) && HoldsPlain(header, 76, f.nonce)
       else
         && HoldsReversed(header, 0, f.version) && HoldsReversed(header, 68, f.ntime)
         && HoldsReversed(header, 72, f.nbits) && HoldsReversed(header, 76, f.nonce)
  }

  lemma PlainHeld(header: Bytes, at: nat, field: string)
    requires Plain(field) && |field| % 2 == 0 && FromHex(field).Some? && at + |field| / 2 <= |header|
    requires header[at..at + |field| / 2] == FromHex(field).value
    ensures HoldsPlain(header, at, field)
  {
    forall i: nat | i < |field| / 2
      ensures PlainHas(header, at, field, i)
    {
      PlainBytes(field, i);
      assert header[at..at + |field| / 2][i] == header[at + i];
    }
  }

  lemma BackwardsHeld(header: Bytes, at: nat, field: string)
    requires Plain(field) && |field| == 64 && FromHex(field).Some? && |FromHex(field).value| == 32
    requires at + 32 <= |header| && header[at..at + 32] == Reverse(FromHex(field).value)
    ensures HoldsBackwards(header, at, field)
  {
    var bytes := FromHex(field).value;
    forall i: nat | i < 32
      ensures BackwardsHas(header, at, field, i)
    {
      PlainBytes(field, 31 - i);
      assert Reverse(bytes)[i] == bytes[31 - i];
      assert header[at..at + 32][i] == header[at + i];
    }
  }

  lemma CheckedBytes(f: Fields)
    requires f.AllDigits()
    ensures Check(f).Ok? && f.Accepted() && Bytewise(Check(f).value) == Bytewise(f) && Bytewise(f).Full()
  {
    FullFields(f);
  }

  lemma DisplayBytes(display: string)
    requires Plain(display) && |display| == 64
    ensures FromHex(display).Some? && |FromHex(display).value| == 32
    ensures Validate(display, 64).Ok? && FromHex(Validate(display, 64).value) == FromHex(display)
  {
    FromHexSize(display);
    PlainBytes(display, 0);
  }

  /** The hash a diagnostic header holds. */
  function PreviousOf(variant: Variant, f: Fields, display: string): Bytes
    requires f.Accepted() && FromHex(display).Some?
  {
    if variant.StratumRaw? || variant.StratumRevFields? then Bytewise(f).prevhash
    else if variant.SerializedRaw? || variant.SerializedRevFields? then Reverse(FromHex(display).value)
    else FromHex(display).value
  }

  lemma HashHeld(variant: Variant, header: Bytes, f: Fields, display: string)
    requires f.AllDigits() && Plain(display) && |display| == 64 && |header| == 80
    requires f.Accepted() && FromHex(display).Some? && header[4..36] == PreviousOf(variant, f, display)
    ensures HoldsHash(variant, header, f, display)
  {
    DisplayBytes(display);
    if variant.StratumRaw? || variant.StratumRevFields? {
      PlainHeld(header, 4, f.prevhash);
    } else if variant.SerializedRaw? || variant.SerializedRevFields? {
      BackwardsHeld(header, 4, display);
    } else {
      PlainHeld(header, 4, display);
    }
  }

  lemma RawFields(f: Fields, previous: Bytes, root: Bytes, header: Bytes)
    requires f.AllDigits() && f.Accepted() && Bytewise(f).Full() && |root| == |previous| == 32
    requires var b := Bytewise(f); header == b.version + previous + root + b.ntime + b.nbits + b.nonce
    ensures |header| == 80 && header[4..36] == previous && header[36..68] == root
    ensures HoldsPlain(header, 0, f.version) && HoldsPlain(header, 68, f.ntime)
    ensures HoldsPlain(header, 72, f.nbits) && HoldsPlain(header, 76, f.nonce)
  {
    var b := Bytewise(f);
    PartsOf(b.version, previous, root, b.ntime, b.nbits, b.nonce, header);
    PlainHeld(header, 0, f.version);
    PlainHeld(header, 68, f.ntime);
    PlainHeld(header, 72, f.nbits);
    PlainHeld(header, 76, f.nonce);
  }

  lemma ReversedFields(f: Fields, previous: Bytes, root: Bytes, header: Bytes)
    requires f.AllDigits() && f.Accepted() && Bytewise(f).Full() && |root| == |previous| == 32
    requires var b := Bytewise(f);
             header == Reverse(b.version) + previous + root + Reverse(b.ntime) + Reverse(b.nbits) + Reverse(b.nonce)
    ensures |header| == 80 && header[4..36] == previous && header[36..68] == root
    ensures HoldsReversed(header, 0, f.version) && HoldsReversed(header, 68, f.ntime)
    ensures HoldsReversed(header, 72, f.nbits) && HoldsReversed(header, 76, f.nonce)
  {
    var b := Bytewise(f);
    PartsOf(Reverse(b.version), previous, root, Reverse(b.ntime), Reverse(b.nbits), Reverse(b.nonce), header);
    ReversedHeld(header, 0, f.version);
    ReversedHeld(header, 68, f.ntime);
    ReversedHeld(header, 72, f.nbits);
    ReversedHeld(header, 76, f.nonce);
  }

  /** Every diagnostic header of digits only, byte by byte. */
  lemma DiagnosticBytes(variant: Variant, f: Fields, display: string, root: Bytes)
    requires f.AllDigits() && Plain(display) && |display| == 64 && |root| == 32
    ensures DiagnosticHeader(variant, f, display, root).Ok?
    ensures IsVariant(variant, DiagnosticHeader(variant, f, display, root).value, f, display, root)
  {
    CheckedBytes(f);
    DisplayBytes(display);
    var header, previous := DiagnosticHeader(variant, f, display, root).value, PreviousOf(variant, f, display);
    if variant.StratumRaw? || variant.SerializedRaw? || variant.DisplayRaw? {
      RawFields(f, previous, root, header);
    } else {
      ReversedFields(f, previous, root, header);
    }
    HashHeld(variant, header, f, display);
  }

  /** A notified previous hash, flipped word by word, is the displayed one from its last byte to its first. */
  lemma NotifiedBackwards(header: Bytes, display: string)
    requires StratumPrevhash(display).Ok? && |header| == 80
    requires HoldsFlipped(header, 4, StratumPrevhash(display).value)
    ensures Plain(display) && |display| == 64 && HoldsBackwards(header, 4, display)
  {
    var notified := StratumPrevhash(display).value;
    PrevhashRoundTrip(display);
    DisplayBytes(display);
    var flipped := Flip(FromHex(notified).value);
    assert flipped == Reverse(FromHex(display).value);
    forall i | 0 <= i < 32
      ensures header[4..36][i] == flipped[i]
    {
      FlipAt(FromHex(notified).value, i);
      PlainBytes(notified, FlippedFrom(i));
      assert FlippedHas(header, 4, notified, i);
      assert header[4..36][i] == header[4 + i];
    }
    BackwardsHeld(header, 4, display);
  }

  /** An 80-byte canonical header is the `serialized-revfields` diagnostic header. */
  lemma CanonicalIsRevFields(f: Fields, display: string, root: Bytes)
    requires StratumPrevhash(display).Ok?
    ensures var header := SerializeHeader(Notified(f, display), root);
            header.Ok? && |header.value| == 80 ==>
              header == DiagnosticHeader(SerializedRevFields, Notified(f, display), display, root)
  {
    var g := Notified(f, display);
    CanonicalIsFull(g, root);
    if g.AllDigits() && |root| == 32 {
      CanonicalBytes(g, root);
      var header := SerializeHeader(g, root).value;
      NotifiedBackwards(header, display);
      DiagnosticBytes(SerializedRevFields, g, display, root);
      SameVariant(header, DiagnosticHeader(SerializedRevFields, g, display, root).value, g, display, root);
    }
  }

  lemma SameVariant(a: Bytes, b: Bytes, f: Fields, display: string, root: Bytes)
    requires IsVariant(SerializedRevFields, a, f, display, root) && IsVariant(SerializedRevFields, b, f, display, root)
    ensures a == b
  {
    forall i | 0 <= i < 80
      ensures a[i] == b[i]
    {
      if 4 <= i < 36 {
        assert BackwardsHas(a, 4, display, i - 4) && BackwardsHas(b, 4, display, i - 4);
      } else if 36 <= i < 68 {
        SamePart(a, b, 36, 68, i);
      }
    }
  }

  // ----- the second builder

  /** `int(text, 16)` of digits. */
  function Value(s: string): nat
    requires Plain(s)
  {
    if s == "" then 0 else 16 * Value(s[..|s| - 1]) + Digit(s[|s| - 1])
  }

  /** `number.to_bytes(size, "little")`, which refuses a number too large. */
  function LittleEndian(number: nat, size: nat): Option<Bytes> {
    if size == 0 then (if number == 0 then Some([]) else None)
    else Put(number % 256, LittleEndian(number / 256, size - 1))
  }

  lemma LittleEndianStep(front: nat, last: Byte, size: nat)
    ensures LittleEndian(256 * front + last, size + 1) == Put(last, LittleEndian(front, size))
  {
  }

  lemma LastValue(s: string, n: nat)
    requires Plain(s) && |s| == n + 2
    ensures Value(s) == 256 * Value(s[..n]) + (16 * Digit(s[n]) + Digit(s[n + 1]))
  {
    assert s[..n + 1][..n] == s[..n];
    assert Value(s[..n + 1]) == 16 * Value(s[..n]) + Digit(s[n]);
  }

  lemma LastHex(s: string, n: nat)
    requires Plain(s) && |s| == n + 2 && FromHex(s[..n]).Some?
    ensures FromHex(s) == Some(FromHex(s[..n]).value + [16 * Digit(s[n]) + Digit(s[n + 1])])
  {
    var last: Byte := 16 * Digit(s[n]) + Digit(s[n + 1]);
    HexByte(s[n], s[n + 1], "");
    assert s[n..] == [s[n], s[n + 1]] + "";
    assert [last] + [] == [last];
    FromHexAppend(s[..n], s[n..]);
    assert s == s[..n] + s[n..];
  }

  /** The last two digits are the last byte, and the least significant one. */
  lemma LastByte(s: string) returns (front: string, last: Byte)
    requires Plain(s) && |s| >= 2 && |s| % 2 == 0
    ensures |front| == |s| - 2 && Plain(front) && FromHex(front).Some?
    ensures FromHex(s) == Some(FromHex(front).value + [last]) && Value(s) == 256 * Value(front) + last
  {
    var n := |s| - 2;
    front, last := s[..n], 16 * Digit(s[n]) + Digit(s[n + 1]);
    FromHexSize(front);
    LastValue(s, n);
    LastHex(s, n);
  }

  lemma {:induction false} LittleEndianField(s: string, size: nat)
    requires Plain(s) && |s| == 2 * size
    ensures FromHex(s).Some? && LittleEndian(Value(s), size) == Some(Reverse(FromHex(s).value))
    decreases size
  {
    if size > 0 {
      var front, last := LastByte(s);
      LittleEndianField(front, size - 1);
      LittleEndianStep(Value(front), last, size - 1);
      ReverseLast(FromHex(front).value, last);
    }
  }

  lemma ReverseLast(b: Bytes, last: Byte)
    ensures Reverse(b + [last]) == [last] + Reverse(b)
  {
    var r := Reverse(b + [last]);
    forall i | 0 <= i < |r|
      ensures r[i] == ([last] + Reverse(b))[i]
    {
      assert r[i] == (b + [last])[|b| - i];
    }
  }

  /** `data[i : i + 4][::-1]` for `count` words, slicing as Python does. */
  function SliceWords(data: Bytes, count: nat): Bytes {
    if count == 0 then [] else
      var n := if |data| < 4 then |data| else 4;
      Reverse(data[..n]) + SliceWords(data[n..], count - 1)
  }

  lemma {:induction false} SliceIsFlip(data: Bytes, count: nat)
    requires |data| == 4 * count
    ensures SliceWords(data, count) == Flip(data)
  {
    if count > 0 {
      SliceIsFlip(data[4..], count - 1);
    }
  }

  /** The header `block_header` makes of a notify's fields, the root they lead to and a nonce. */
  function BlockHeader(f: Fields, root: Bytes, nonce: nat): Option<Bytes>
    requires Plain(f.version) && Plain(f.ntime) && Plain(f.nbits)
  {
    var version := LittleEndian(Value(f.version), 4);
    var previous := FromHex(f.prevhash);
    var ntime := LittleEndian(Value(f.ntime), 4);
    var nbits := LittleEndian(Value(f.nbits), 4);
    var last := LittleEndian(nonce, 4);
    if version.None? || previous.None? || ntime.None? || nbits.None? || last.None? then None
    else
      Some(version.value + SliceWords(previous.value, 8) + root + ntime.value + nbits.value + last.value)
  }

  /** The second builder too makes the header that the digits write. */
  lemma BlockHeaderBytes(f: Fields, root: Bytes)
    requires f.AllDigits() && |root| == 32
    ensures BlockHeader(f, root, Value(f.nonce)).Some?
    ensures IsHeader(BlockHeader(f, root, Value(f.nonce)).value, f, root)
  {
    FullFields(f);
    LittleEndianField(f.version, 4);
    LittleEndianField(f.ntime, 4);
    LittleEndianField(f.nbits, 4);
    LittleEndianField(f.nonce, 4);
    var b := Bytewise(f);
    SliceIsFlip(b.prevhash, 8);
    var header := BlockHeader(f, root, Value(f.nonce)).value;
    PartsOf(Reverse(b.version), Flip(b.prevhash), root, Reverse(b.ntime), Reverse(b.nbits), Reverse(b.nonce), header);
    BuiltHeader(f, root, header);
  }

  /** The two independent builders agree on every 80-byte header. */
  lemma BuildersAgree(f: Fields, root: Bytes)
    ensures var header := SerializeHeader(f, root);
            header.Ok? && |header.value| == 80 ==>
              f.AllDigits() && BlockHeader(f, root, Value(f.nonce)) == Some(header.value)
  {
    CanonicalIsFull(f, root);
    if f.AllDigits() && |root| == 32 {
      CanonicalBytes(f, root);
      BlockHeaderBytes(f, root);
      HeaderDetermined(SerializeHeader(f, root).value, BlockHeader(f, root, Value(f.nonce)).value, f, root);
    }
  }
}
