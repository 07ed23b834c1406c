/** The Python values scripts/prism-recovery-evidence.py computes with: parsed JSON, the
    operations the summary applies to it, and the exceptions they raise.

    Field names and record kinds the script names are constructors; any other is `Other...`. */
module EvidenceJson {
  import opened Common
  import opened Results
  import opened Sorting

  datatype Field =
    | KindField | RowField
    | ShareSeq | Accepted
    | BlockHash | AsIssuedAudit
    | BlockHeight | CarrySeq | Program | Recipient | OrderKey
    | GrossAmount | OnchainAmount | PriorBalance | CandidateBalance | CarryBalance
    | StateField
    | MismatchCount | DriftCount | CheckedRows | Mismatches
    | OtherField(name: string)

  /** A step into a value, from the results a worker returned down. */
  datatype Place = Nth(n: nat) | In(field: Field)

  /** Which object a NaN is: the one `json.loads` always gives, or the copy that a process makes of it
      when it is sent a value, a new one at every place. */
  datatype Object = Module | Copy(place: seq<Place>)

  /** A JSON value. Integers and other numbers are apart, as `json.loads` keeps them. */
  datatype Json =
    | Null
    | Bool(b: bool)
    | Int(i: int)
    | Float(r: real)
    | NegativeZero
    | Infinite(positive: bool)
    | NaN(object: Object)
    | Str(s: string)
    | Arr(items: seq<Json>)
    | Obj(fields: map<Field, Json>)

  datatype Tag = NoneType | BoolType | IntType | FloatType | StrType | ListType | DictType

  function TypeOf(v: Json): (tag: Tag)
    ensures tag == NoneType <==> v == Null
    ensures tag == BoolType <==> v.Bool?
    ensures tag == IntType <==> v.Int?
    ensures tag == StrType <==> v.Str?
    ensures tag == ListType <==> v.Arr?
    ensures tag == DictType <==> v.Obj?
  {
    match v
    case Null => NoneType
    case Bool(_) => BoolType
    case Int(_) => IntType
    case Float(_) => FloatType
    case NegativeZero => FloatType
    case Infinite(_) => FloatType
    case NaN(_) => FloatType
    case Str(_) => StrType
    case Arr(_) => ListType
    case Obj(_) => DictType
  }

  datatype Refusal =
    | RecordsAfterMarker | BadMarker | DuplicateIntegrity | AccountingAfterIntegrity
    | BlocksAfterCarry | CarryOrder | ShareOrder | NotAnAmount(field: Field)
    | DuplicateDeferral | DeferralNotObject | UnknownKind(kind: Json)
    | IncompleteExport | IntegrityNotObject | IntegrityLacks(field: Field) | CurrentDrift
    | CarryCountDiffers | MismatchesNotListed | MismatchNotObject
    | AsIssuedFindings(count: nat) | LegacyBreaks(count: nat) | Unexplained(count: nat)
    | DeferralBesideRows
    | BadText(detail: string)

  datatype Error =
    | ValueError(why: Refusal)
    | KeyError(field: Field)
    | NotSubscriptable(tag: Tag) | NoGet(tag: Tag) | Unhashable(tag: Tag) | NotIterable(tag: Tag)
    | IntArgument(tag: Tag) | IntOfNaN | IntOfInfinite | NotComparable(left: Tag, right: Tag)
    | DecodeError(detail: string)
    | Escaping(detail: string)

  /** ValueError, KeyError, TypeError and AttributeError: what the summarizer refuses with. */
  predicate OwnRefusal(e: Error) {
    !e.Escaping?
  }

  // ----- what the script calls and this model does not see into

  /** What an evidence record's kind means to the summary. */
  datatype Kind = Complete | Integrity | Deferral | Accounting(of: Hashed) | Unknown | UnhashableKind(tag: Tag)

  /** The kinds of KINDS: each is hashed and counted, and four of them checked further. */
  datatype Hashed = Shares | Blocks | ActiveCarry | Candidates | ShareHashes | OtherHashed(name: string)

  /** `json.loads`, the canonical bytes of a row, SHA-256, `int` of a text, the pickling of an
      error, the comparison of lists and objects, and the meaning of a kind's text. */
  datatype World = World(
      loads: string -> Result<Json, Error>,
      canonical: Json -> Result<Bytes, Error>,
      sha: Bytes -> Bytes,
      intOfText: string -> Result<int, Error>,
      pickles: Error -> bool,
      le: (Json, Json) -> Result<bool, Error>,
      eq: (Json, Json) -> bool,
      meaning: string -> Kind)
  {
    function kind(v: Json): Kind {
      match v
      case Str(s) => meaning(s)
      case Arr(_) => UnhashableKind(ListType)
      case Obj(_) => UnhashableKind(DictType)
      case _ => Unknown
    }
  }

  // ----- Python operations

  /** `v[f]` */
  function Item(v: Json, f: Field): Result<Json, Error> {
    match v
    case Obj(m) => if f in m then Ok(m[f]) else Err(KeyError(f))
    case _ => Err(NotSubscriptable(TypeOf(v)))
  }

  /** `v.get(f)` */
  function Get(v: Json, f: Field): Result<Json, Error> {
    match v
    case Obj(m) => Ok(if f in m then m[f] else Null)
    case _ => Err(NoGet(TypeOf(v)))
  }

  predicate IsFinite(v: Json) {
    v.Int? || v.Float? || v.NegativeZero? || v.Bool?
  }

  predicate IsNumber(v: Json) {
    IsFinite(v) || v.Infinite? || v.NaN?
  }

  function NumberOf(v: Json): real
    requires IsFinite(v)
  {
    match v
    case Int(i) => i as real
    case Float(r) => r
    case NegativeZero => 0.0
    case Bool(b) => if b then 1.0 else 0.0
  }

  /** `a <= b` for numbers: nothing is above or below a NaN. */
  predicate NumberLe(a: Json, b: Json)
    requires IsNumber(a) && IsNumber(b)
  {
    if a.NaN? || b.NaN? then false
    else if IsFinite(a) && IsFinite(b) then NumberOf(a) <= NumberOf(b)
    else a == Infinite(false) || b == Infinite(true)
  }

  /** `a <= b` */
  function Le(w: World, a: Json, b: Json): Result<bool, Error> {
    if IsNumber(a) && IsNumber(b) then Ok(NumberLe(a, b))
    else if a.Str? && b.Str? then Ok(StringLe(a.s, b.s))
    else if a.Arr? && b.Arr? then w.le(a, b)
    else Err(NotComparable(TypeOf(a), TypeOf(b)))
  }

  /** `a is b or a == b`, as items of tuples are compared: a NaN equals only itself. */
  predicate Eq(w: World, a: Json, b: Json) {
    if IsFinite(a) && IsFinite(b) then NumberOf(a) == NumberOf(b)
    else if (a.Arr? && b.Arr?) || (a.Obj? && b.Obj?) then w.eq(a, b)
    else a == b
  }

  /** `(a, b) <= (c, d)` */
  function PairLe(w: World, a: (Json, Json), b: (Json, Json)): Result<bool, Error> {
    if !Eq(w, a.0, b.0) then Le(w, a.0, b.0)
    else if !Eq(w, a.1, b.1) then Le(w, a.1, b.1)
    else Ok(true)
  }

  /** The identity of `v` as a dict key or set member: equal numbers are one key, and a NaN is one key
      with itself only. */
  function Hash(v: Json): Result<Json, Error> {
    match v
    case Int(i) => Ok(Float(i as real))
    case Bool(b) => Ok(Float(if b then 1.0 else 0.0))
    case NegativeZero => Ok(Float(0.0))
    case Arr(_) => Err(Unhashable(ListType))
    case Obj(_) => Err(Unhashable(DictType))
    case _ => Ok(v)
  }

  /** `int(v)` */
  function IntOf(w: World, v: Json): Result<int, Error> {
    match v
    case Int(i) => Ok(i)
    case Bool(b) => Ok(if b then 1 else 0)
    case Float(r) => Ok(if r >= 0.0 then r.Floor else -((-r).Floor))
    case NegativeZero => Ok(0)
    case Infinite(_) => Err(IntOfInfinite)
    case NaN(_) => Err(IntOfNaN)
    case Str(s) => w.intOfText(s)
    case _ => Err(IntArgument(TypeOf(v)))
  }

  predicate Digit(c: char) {
    '0' <= c <= '9'
  }

  predicate Digits(s: string) {
    s != "" && forall i :: 0 <= i < |s| ==> Digit(s[i])
  }

  /** The whole text is "-?[0-9]+". */
  predicate IntegerText(s: string) {
    Digits(if s != "" && s[0] == '-' then s[1..] else s)
  }

  /** `_amount` */
  function Amount(w: World, row: Json, f: Field): Result<int, Error> {
    var v :- Item(row, f);
    match v
    case Int(i) => Ok(i)
    case Str(s) => if IntegerText(s) then w.intOfText(s) else Err(ValueError(NotAnAmount(f)))
    case _ => Err(ValueError(NotAnAmount(f)))
  }

  /** `_off_chain`: the balances are compared in turn, and the first that differs decides. */
  function OffChain(w: World, row: Json, prior: int, gross: int, onchain: int): Result<bool, Error> {
    var a :- Amount(w, row, PriorBalance);
    if a != prior then Ok(true)
    else
      var b :- Amount(w, row, CandidateBalance);
      if b != prior + gross then Ok(true)
      else
        var c :- Amount(w, row, CarryBalance);
        Ok(c != prior + gross - onchain)
  }

  // ----- what the comparisons say

  /** The number that a value stands for, NaN and the infinities apart. */
  predicate IsValue(v: Json, x: real) {
    match v
    case Int(i) => x == i as real
    case Float(r) => x == r
    case NegativeZero => x == 0.0
    case Bool(b) => x == if b then 1.0 else 0.0
    case _ => false
  }

  predicate Ranges(v: Json) {
    v.Int? || v.Float? || v.NegativeZero? || v.Bool? || v.Infinite? || v.NaN?
  }

  /** Numbers compare with numbers, texts with texts, and lists with lists when their items do. */
  predicate Comparable(w: World, a: Json, b: Json) {
    (Ranges(a) && Ranges(b)) || (a.Str? && b.Str?) || (a.Arr? && b.Arr? && w.le(a, b).Ok?)
  }

  /** `a` is above `b`, or one of them is a NaN. */
  ghost predicate NotAtMost(w: World, a: Json, b: Json) {
    match (a, b)
    case (Str(s), Str(t)) => s != t && (t <= s || exists k: nat :: BelowAt(t, s, k))
    case (Arr(_), Arr(_)) => w.le(a, b) == Ok(false)
    case _ => Ranges(a) && Ranges(b) && NumberNotAtMost(a, b)
  }

  ghost predicate NumberNotAtMost(a: Json, b: Json) {
    || a.NaN? || b.NaN?
    || (a == Infinite(true) && b != Infinite(true))
    || (b == Infinite(false) && a != Infinite(false))
    || exists x, y :: IsValue(a, x) && IsValue(b, y) && x > y
  }

  lemma LeExactly(w: World, a: Json, b: Json)
    ensures Le(w, a, b).Ok? <==> Comparable(w, a, b)
    ensures Le(w, a, b) == Ok(false) <==> NotAtMost(w, a, b)
  {
    if a.Str? && b.Str? {
      StringLeExactly(b.s, a.s);
      StringTotal(a.s, b.s);
      if StringLe(a.s, b.s) && StringLe(b.s, a.s) {
        StringAntisymmetric(a.s, b.s);
      }
    } else if IsFinite(a) && IsFinite(b) {
      assert IsValue(a, NumberOf(a)) && IsValue(b, NumberOf(b));
    }
  }

  /** Items of a pair that are one: equal numbers, equal lists or objects, or the same value. */
  ghost predicate OneItem(w: World, a: Json, b: Json) {
    || (exists x :: IsValue(a, x) && IsValue(b, x))
    || (if (a.Arr? && b.Arr?) || (a.Obj? && b.Obj?) then w.eq(a, b) else a == b)
  }

  lemma EqExactly(w: World, a: Json, b: Json)
    ensures Eq(w, a, b) <==> OneItem(w, a, b)
  {
    if IsFinite(a) && IsFinite(b) {
      assert IsValue(a, NumberOf(a)) && IsValue(b, NumberOf(b));
    }
  }

  /** Pairs compare by the first place at which they differ. */
  lemma PairLeExactly(w: World, a: (Json, Json), b: (Json, Json))
    ensures PairLe(w, a, b) == Ok(false)
            <==> if OneItem(w, a.0, b.0) then !OneItem(w, a.1, b.1) && NotAtMost(w, a.1, b.1)
                 else NotAtMost(w, a.0, b.0)
    ensures PairLe(w, a, b).Ok?
            <==> if OneItem(w, a.0, b.0) then OneItem(w, a.1, b.1) || Comparable(w, a.1, b.1)
                 else Comparable(w, a.0, b.0)
  {
    EqExactly(w, a.0, b.0);
    EqExactly(w, a.1, b.1);
    LeExactly(w, a.0, b.0);
    LeExactly(w, a.1, b.1);
  }

  /** A minus sign or none, and then one digit or more. */
  predicate Signed(s: string, digits: string) {
    && (s == digits || s == "-" + digits)
    && digits != "" && forall i :: 0 <= i < |digits| ==> '0' <= digits[i] <= '9'
  }

  lemma IntegerTextExactly(s: string)
    ensures IntegerText(s) <==> exists digits :: Signed(s, digits)
  {
    var rest := if s != "" && s[0] == '-' then s[1..] else s;
    if IntegerText(s) {
      assert s != "" && s[0] == '-' ==> s == "-" + rest;
      assert Digits(rest);
      assert Signed(s, rest);
    }
    if digits :| Signed(s, digits) {
      assert digits[0] != '-';
      assert digits == rest && Digits(rest);
    }
  }

  // ----- which object a NaN is

  /** The value, whichever objects its NaNs are: what is printed of it. */
  function Shown(v: Json): Json {
    match v
    case NaN(_) => NaN(Module)
    case Arr(items) => Arr(seq(|items|, i requires 0 <= i < |items| => Shown(items[i])))
    case Obj(fields) => Obj(map f | f in fields :: Shown(fields[f]))
    case _ => v
  }

  /** The value as another process receives it, at `place`. */
  function Copied(v: Json, place: seq<Place>): Json {
    match v
    case NaN(_) => NaN(Copy(place))
    case Arr(items) => Arr(seq(|items|, i requires 0 <= i < |items| => Copied(items[i], place + [Nth(i)])))
    case Obj(fields) => Obj(map f | f in fields :: Copied(fields[f], place + [In(f)]))
    case _ => v
  }

  predicate HasNaN(v: Json) {
    match v
    case NaN(_) => true
    case Arr(items) => exists i :: 0 <= i < |items| && HasNaN(items[i])
    case Obj(fields) => exists f :: f in fields && HasNaN(fields[f])
    case _ => false
  }

  lemma {:induction false} ShownCopied(v: Json, place: seq<Place>)
    ensures Shown(Copied(v, place)) == Shown(v)
  {
    match v
    case Arr(items) =>
      forall i | 0 <= i < |items|
        ensures Shown(Copied(items[i], place + [Nth(i)])) == Shown(items[i])
      {
        ShownCopied(items[i], place + [Nth(i)]);
      }
    case Obj(fields) =>
      forall f | f in fields
        ensures Shown(Copied(fields[f], place + [In(f)])) == Shown(fields[f])
      {
        ShownCopied(fields[f], place + [In(f)]);
      }
    case _ =>
  }

  /** Without a NaN a value is what is printed of it. */
  lemma {:induction false} ShownDetermines(a: Json, b: Json)
    requires !HasNaN(a) && Shown(a) == Shown(b)
    ensures a == b
  {
    match a
    case Arr(items) =>
      forall i | 0 <= i < |items|
        ensures items[i] == b.items[i]
      {
        assert Shown(a).items[i] == Shown(b).items[i];
        ShownDetermines(items[i], b.items[i]);
      }
    case Obj(fields) =>
      assert Shown(a).fields.Keys == Shown(b).fields.Keys;
      forall f | f in fields
        ensures f in b.fields && fields[f] == b.fields[f]
      {
        assert f in Shown(b).fields && Shown(a).fields[f] == Shown(b).fields[f];
        ShownDetermines(fields[f], b.fields[f]);
      }
      forall f | f in b.fields
        ensures f in fields
      {
        assert f in Shown(b).fields;
      }
      assert fields == b.fields;
    case _ =>
  }

  /** A value is the same wherever it is copied to exactly when there is no NaN in it. */
  lemma {:induction false} CopiedApart(v: Json, p: seq<Place>, q: seq<Place>)
    requires p != q
    ensures HasNaN(v) <==> Copied(v, p) != Copied(v, q)
  {
    match v
    case Arr(items) =>
      forall i | 0 <= i < |items|
        ensures HasNaN(items[i]) <==> Copied(v, p).items[i] != Copied(v, q).items[i]
      {
        LongerApart(p, q, Nth(i));
        CopiedApart(items[i], p + [Nth(i)], q + [Nth(i)]);
      }
    case Obj(fields) =>
      forall f | f in fields
        ensures HasNaN(fields[f]) <==> Copied(v, p).fields[f] != Copied(v, q).fields[f]
      {
        LongerApart(p, q, In(f));
        CopiedApart(fields[f], p + [In(f)], q + [In(f)]);
      }
    case _ =>
  }

  lemma LongerApart<T>(p: seq<T>, q: seq<T>, last: T)
    requires p != q
    ensures p + [last] != q + [last]
  {
    assert (p + [last])[..|p|] == p && (q + [last])[..|q|] == q;
  }
}
