/** scripts/prism-recovery-evidence-parallel.py: range predicates with SQL's NULLs, and why the
    ordered parts, one after another, are the serial export. */
module ExportRanges {
  import opened Common
  import opened Results
  import opened Sorting

  /** A row of the table: its sort key, NULL when None, and what it prints. */
  datatype Row<K, V> = Row(key: Option<K>, printed: V)

  // ----- SQL conditions

  datatype Truth = Yes | No | Unknown

  datatype Sql<K> =
    | Always
    | Less(bound: K)
    | AtLeast(bound: K)
    | IsNull
    | And(left: Sql<K>, right: Sql<K>)
    | Or(left: Sql<K>, right: Sql<K>)

  function AndOf(a: Truth, b: Truth): (r: Truth)
    ensures r == Yes <==> a == Yes && b == Yes
    ensures r == No <==> a == No || b == No
  {
    if a.No? || b.No? then No else if a.Yes? && b.Yes? then Yes else Unknown
  }

  function OrOf(a: Truth, b: Truth): (r: Truth)
    ensures r == Yes <==> a == Yes || b == Yes
    ensures r == No <==> a == No && b == No
  {
    if a.Yes? || b.Yes? then Yes else if a.No? && b.No? then No else Unknown
  }

  function Holds(b: bool): Truth {
    if b then Yes else No
  }

  /** A comparison with NULL is unknown. */
  function Eval<K>(lt: (K, K) -> bool, sql: Sql<K>, key: Option<K>): Truth {
    match sql
    case Always => Yes
    case Less(bound) => if key.None? then Unknown else Holds(lt(key.value, bound))
    case AtLeast(bound) => if key.None? then Unknown else Holds(!lt(key.value, bound))
    case IsNull => Holds(key.None?)
    case And(a, b) => AndOf(Eval(lt, a, key), Eval(lt, b, key))
    case Or(a, b) => OrOf(Eval(lt, a, key), Eval(lt, b, key))
  }

  /** The bounds between two open edges. */
  function Edges<K>(bounds: seq<K>): (edges: seq<Option<K>>)
    ensures |edges| == |bounds| + 2
    ensures forall i :: 0 <= i < |edges| ==>
              edges[i] == if i == 0 || i == |bounds| + 1 then None else Some(bounds[i - 1])
  {
    [None] + seq(|bounds|, i requires 0 <= i < |bounds| => Some(bounds[i])) + [None]
  }

  /** `ranges`: consecutive edges. */
  function Ranges<K>(bounds: seq<K>): (r: seq<(Option<K>, Option<K>)>)
    ensures |r| == |bounds| + 1
    ensures forall k :: 0 <= k < |r| ==>
              && r[k].0 == (if k == 0 then None else Some(bounds[k - 1]))
              && r[k].1 == (if k == |bounds| then None else Some(bounds[k]))
  {
    var edges := Edges(bounds);
    seq(|bounds| + 1, i requires 0 <= i <= |bounds| => (edges[i], edges[i + 1]))
  }

  /** `predicate` */
  function Condition<K>(lower: Option<K>, upper: Option<K>): Sql<K> {
    if lower.None? then
      if upper.None? then Always else Less(upper.value)
    else if upper.None? then Or(AtLeast(lower.value), IsNull)
    else And(AtLeast(lower.value), Less(upper.value))
  }

  predicate Follows<K>(lt: (K, K) -> bool, a: K, b: K, c: K) {
    lt(a, b) && lt(b, c) ==> lt(a, c)
  }

  ghost predicate StrictOrder<K(!new)>(lt: (K, K) -> bool) {
    && (forall a :: !lt(a, a))
    && (forall a, b, c :: Follows(lt, a, b, c))
    && (forall a, b :: a == b || lt(a, b) || lt(b, a))
  }

  /** The integers, by which the exports are sorted, are in such an order. */
  lemma IntegersOrdered()
    ensures StrictOrder((a: int, b: int) => a < b)
  {
  }

  ghost predicate Ascending<K(!new)>(lt: (K, K) -> bool, bounds: seq<K>) {
    forall i, j :: 0 <= i < j < |bounds| ==> lt(bounds[i], bounds[j])
  }

  // ----- every row in exactly one part

  /** Whether part `k` selects a row with this key. */
  predicate Selects<K>(lt: (K, K) -> bool, bounds: seq<K>, k: nat, key: Option<K>)
    requires k <= |bounds|
  {
    var (lower, upper) := Ranges(bounds)[k];
    Eval(lt, Condition(lower, upper), key) == Yes
  }

  lemma ConditionMeans<K>(lt: (K, K) -> bool, lower: Option<K>, upper: Option<K>, key: Option<K>)
    ensures Eval(lt, Condition(lower, upper), key) == Yes <==>
      if key.None? then upper.None?
      else (lower.Some? ==> !lt(key.value, lower.value)) && (upper.Some? ==> lt(key.value, upper.value))
  {
    if lower.Some? && upper.Some? {
      var above, below := Eval(lt, AtLeast(lower.value), key), Eval(lt, Less(upper.value), key);
      assert Eval(lt, Condition(lower, upper), key) == AndOf(above, below);
    } else if lower.Some? {
      assert Eval(lt, Condition(lower, upper), key)
          == OrOf(Eval(lt, AtLeast(lower.value), key), Eval(lt, IsNull, key));
    }
  }

  lemma SelectsMeans<K>(lt: (K, K) -> bool, bounds: seq<K>, k: nat, key: Option<K>)
    requires k <= |bounds|
    ensures Selects(lt, bounds, k, key) <==>
      if key.None? then k == |bounds|
      else (k > 0 ==> !lt(key.value, bounds[k - 1])) && (k < |bounds| ==> lt(key.value, bounds[k]))
  {
    var (lower, upper) := Ranges(bounds)[k];
    ConditionMeans(lt, lower, upper, key);
  }

  /** The part a key falls in: past every bound that is not above it. */
  function PartOf<K>(lt: (K, K) -> bool, bounds: seq<K>, key: Option<K>): (k: nat)
    ensures k <= |bounds|
  {
    if key.None? || bounds == [] then |bounds|
    else if lt(key.value, bounds[|bounds| - 1]) then PartOf(lt, bounds[..|bounds| - 1], key)
    else |bounds|
  }

  lemma {:induction false} PartOfKey<K(!new)>(lt: (K, K) -> bool, bounds: seq<K>, key: K)
    requires StrictOrder(lt) && Ascending(lt, bounds)
    ensures var k := PartOf(lt, bounds, Some(key));
            && (forall i :: 0 <= i < k ==> !lt(key, bounds[i]))
            && (forall i :: k <= i < |bounds| ==> lt(key, bounds[i]))
  {
    var n := |bounds|;
    if n > 0 {
      if lt(key, bounds[n - 1]) {
        PartOfKey(lt, bounds[..n - 1], key);
      } else {
        forall i | 0 <= i < n
          ensures !lt(key, bounds[i])
        {
          assert i < n - 1 ==> lt(bounds[i], bounds[n - 1]) && Follows(lt, key, bounds[i], bounds[n - 1]);
        }
      }
    }
  }

  lemma PartDecides<K(!new)>(lt: (K, K) -> bool, bounds: seq<K>, key: K, part: nat, k: nat)
    requires part <= |bounds| && k <= |bounds|
    requires (forall i :: 0 <= i < part ==> !lt(key, bounds[i])) && forall i :: part <= i < |bounds| ==>
             lt(key, bounds[i])
    ensures (k > 0 ==> !lt(key, bounds[k - 1])) && (k < |bounds| ==> lt(key, bounds[k])) <==> k == part
  {
  }

  /** For any ascending boundaries and any key, NULL included, exactly one part selects the row. */
  lemma ExactlyOnePart<K(!new)>(lt: (K, K) -> bool, bounds: seq<K>, key: Option<K>, k: nat)
    requires StrictOrder(lt) && Ascending(lt, bounds) && k <= |bounds|
    ensures Selects(lt, bounds, k, key) <==> k == PartOf(lt, bounds, key)
  {
    SelectsMeans(lt, bounds, k, key);
    if key.Some? {
      PartOfKey(lt, bounds, key.value);
      PartDecides(lt, bounds, key.value, PartOf(lt, bounds, key), k);
    }
  }

  function Selected<K, V>(lt: (K, K) -> bool, bounds: seq<K>, k: nat, rows: seq<Row<K, V>>): seq<Row<K, V>>
    requires k <= |bounds|
  {
    if rows == [] then []
    else
      var n := |rows| - 1;
      Selected(lt, bounds, k, rows[..n]) + if Selects(lt, bounds, k, rows[n].key) then [rows[n]] else []
  }

  /** The sum of the first `parts` terms. */
  function Sum<T>(term: nat -> multiset<T>, parts: nat): multiset<T> {
    if parts == 0 then multiset{} else Sum(term, parts - 1) + term(parts - 1)
  }

  function OneIf<T>(x: T, included: bool): multiset<T> {
    if included then multiset{x} else multiset{}
  }

  /** One term gains one element. */
  lemma {:induction false} SumStep<T>(term: nat -> multiset<T>, less: nat -> multiset<T>, x: T, at: nat, parts: nat)
    requires forall k: nat :: k < parts ==> term(k) == less(k) + OneIf(x, k == at)
    ensures Sum(term, parts) == Sum(less, parts) + OneIf(x, at < parts)
  {
    if parts > 0 {
      SumStep(term, less, x, at, parts - 1);
    }
  }

  lemma {:induction false} SumNothing<T>(term: nat -> multiset<T>, parts: nat)
    requires forall k: nat :: k < parts ==> term(k) == multiset{}
    ensures Sum(term, parts) == multiset{}
  {
    if parts > 0 {
      SumNothing(term, parts - 1);
    }
  }

  ghost function Selections<K, V>(lt: (K, K) -> bool, bounds: seq<K>,
      rows: seq<Row<K, V>>): nat -> multiset<Row<K, V>> {
    (k: nat) => if k <= |bounds| then multiset(Selected(lt, bounds, k, rows)) else multiset{}
  }

  /** What the first `parts` parts select between them. */
  ghost function Pool<K, V>(lt: (K, K) -> bool, bounds: seq<K>, rows: seq<Row<K, V>>, parts: nat): multiset<Row<K, V>> {
    Sum(Selections(lt, bounds, rows), parts)
  }

  lemma SelectedLast<K, V>(lt: (K, K) -> bool, bounds: seq<K>, k: nat, rows: seq<Row<K, V>>, selects: bool)
    requires k <= |bounds| && rows != [] && (selects <==> Selects(lt, bounds, k, rows[|rows| - 1].key))
    ensures var n := |rows| - 1;
            multiset(Selected(lt, bounds, k, rows))
            == multiset(Selected(lt, bounds, k, rows[..n])) + OneIf(rows[n], selects)
  {
    var n := |rows| - 1;
    assert Selected(lt, bounds, k, rows) == Selected(lt, bounds, k, rows[..n]) + if selects then [rows[n]] else [];
  }

  lemma SelectedStep<K(!new), V>(lt: (K, K) -> bool, bounds: seq<K>, k: nat, rows: seq<Row<K, V>>)
    requires StrictOrder(lt) && Ascending(lt, bounds) && k <= |bounds| && rows != []
    ensures var n := |rows| - 1;
            Selections(lt, bounds, rows)(k)
            == Selections(lt, bounds, rows[..n])(k) + OneIf(rows[n], k == PartOf(lt, bounds, rows[n].key))
  {
    var key := rows[|rows| - 1].key;
    ExactlyOnePart(lt, bounds, key, k);
    SelectedLast(lt, bounds, k, rows, k == PartOf(lt, bounds, key));
  }

  lemma {:induction false} PoolIsTable<K(!new), V>(lt: (K, K) -> bool, bounds: seq<K>, rows: seq<Row<K, V>>)
    requires StrictOrder(lt) && Ascending(lt, bounds)
    ensures Pool(lt, bounds, rows, |bounds| + 1) == multiset(rows)
  {
    if rows == [] {
      SumNothing(Selections<K, V>(lt, bounds, []), |bounds| + 1);
    } else {
      var n := |rows| - 1;
      PoolIsTable(lt, bounds, rows[..n]);
      forall k: nat | k < |bounds| + 1
        ensures Selections(lt, bounds, rows)(k)
                == Selections(lt, bounds, rows[..n])(k) + OneIf(rows[n], k == PartOf(lt, bounds, rows[n].key))
      {
        SelectedStep(lt, bounds, k, rows);
      }
      SumStep(Selections(lt, bounds, rows), Selections(lt, bounds, rows[..n]), rows[n],
              PartOf(lt, bounds, rows[n].key), |bounds| + 1);
      LastOf(rows);
    }
  }

  lemma LastOf<T>(s: seq<T>)
    requires s != []
    ensures multiset(s) == multiset(s[..|s| - 1]) + multiset{s[|s| - 1]}
  {
    assert s == s[..|s| - 1] + [s[|s| - 1]];
  }

  // ----- ordered exports

  /** `ORDER BY key`: ascending, NULLs last. */
  predicate MayPrecede<K>(lt: (K, K) -> bool, a: Option<K>, b: Option<K>) {
    b.None? || (a.Some? && !lt(b.value, a.value))
  }

  ghost predicate InOrder<K, V>(lt: (K, K) -> bool, out: seq<Row<K, V>>) {
    forall i, j :: 0 <= i < j < |out| ==> MayPrecede(lt, out[i].key, out[j].key)
  }

  /** `out` is an answer a database may give for `rows` under ORDER BY. */
  ghost predicate Exports<K, V>(lt: (K, K) -> bool, rows: seq<Row<K, V>>, out: seq<Row<K, V>>) {
    multiset(out) == multiset(rows) && InOrder(lt, out)
  }

  /** Each part's session gave some ordered answer for its range. */
  ghost predicate PartsExport<K(!new), V(!new)>(lt: (K, K) -> bool, bounds: seq<K>, rows: seq<Row<K, V>>,
      outs: seq<seq<Row<K, V>>>)
  {
    |outs| == |bounds| + 1 &&
    forall k :: 0 <= k < |outs| ==> Exports(lt, Selected(lt, bounds, k, rows), outs[k])
  }

  lemma {:induction false} SelectedOnly<K(!new), V>(lt: (K, K) -> bool, bounds: seq<K>, k: nat, rows: seq<Row<K, V>>,
      r: Row<K, V>)
    requires StrictOrder(lt) && Ascending(lt, bounds) && k <= |bounds| && r in Selected(lt, bounds, k, rows)
    ensures PartOf(lt, bounds, r.key) == k
  {
    var n := |rows| - 1;
    if r in Selected(lt, bounds, k, rows[..n]) {
      SelectedOnly(lt, bounds, k, rows[..n], r);
    } else {
      ExactlyOnePart(lt, bounds, rows[n].key, k);
    }
  }

  lemma PartsInOrder<K(!new)>(lt: (K, K) -> bool, bounds: seq<K>, a: Option<K>, b: Option<K>)
    requires StrictOrder(lt) && Ascending(lt, bounds) && PartOf(lt, bounds, a) < PartOf(lt, bounds, b)
    ensures MayPrecede(lt, a, b)
  {
    if b.Some? {
      PartOfKey(lt, bounds, b.value);
      if a.Some? {
        PartOfKey(lt, bounds, a.value);
        var i := PartOf(lt, bounds, a);
        assert lt(a.value, bounds[i]) && !lt(b.value, bounds[i]) && Follows(lt, b.value, a.value, bounds[i]);
      }
    }
  }

  lemma {:induction false} JoinedParts<K(!new), V(!new)>(lt: (K, K) -> bool, bounds: seq<K>, rows: seq<Row<K, V>>,
      outs: seq<seq<Row<K, V>>>, n: nat)
    requires StrictOrder(lt) && Ascending(lt, bounds) && PartsExport(lt, bounds, rows, outs) && n <= |outs|
    ensures multiset(Flatten(outs[..n])) == Pool(lt, bounds, rows, n)
    ensures InOrder(lt, Flatten(outs[..n]))
    ensures forall r :: r in Flatten(outs[..n]) ==> PartOf(lt, bounds, r.key) < n
  {
    if n > 0 {
      JoinedParts(lt, bounds, rows, outs, n - 1);
      assert outs[..n][..n - 1] == outs[..n - 1];
      var before, last := Flatten(outs[..n - 1]), outs[n - 1];
      assert Flatten(outs[..n]) == before + last;
      forall r | r in last
        ensures PartOf(lt, bounds, r.key) == n - 1
      {
        FromMultiset(last, Selected(lt, bounds, n - 1, rows), r);
        SelectedOnly(lt, bounds, n - 1, rows, r);
      }
      JoinedInOrder(lt, bounds, before, last, n - 1);
    }
  }

  lemma FromMultiset<T>(a: seq<T>, b: seq<T>, x: T)
    requires multiset(a) == multiset(b) && x in a
    ensures x in b
  {
    assert x in multiset(a);
  }

  lemma JoinedInOrder<K(!new), V(!new)>(lt: (K, K) -> bool, bounds: seq<K>, before: seq<Row<K, V>>,
      last: seq<Row<K, V>>, n: nat)
    requires StrictOrder(lt) && Ascending(lt, bounds) && InOrder(lt, before) && InOrder(lt, last)
    requires forall r :: r in before ==> PartOf(lt, bounds, r.key) < n
    requires forall r :: r in last ==> PartOf(lt, bounds, r.key) == n
    ensures InOrder(lt, before + last)
  {
    var all := before + last;
    forall i, j | 0 <= i < j < |all|
      ensures MayPrecede(lt, all[i].key, all[j].key)
    {
      if i < |before| <= j {
        assert before[i] in before && last[j - |before|] in last;
        PartsInOrder(lt, bounds, all[i].key, all[j].key);
      } else if i >= |before| {
        assert all[i] == last[i - |before|] && all[j] == last[j - |before|];
      }
    }
  }

  /** Whatever the boundaries, and whatever ordered answer each session gives, the parts one after
      another are an ordered answer for the whole table. */
  lemma PartsAreAnExport<K(!new), V(!new)>(lt: (K, K) -> bool, bounds: seq<K>, rows: seq<Row<K, V>>,
      outs: seq<seq<Row<K, V>>>)
    requires StrictOrder(lt) && Ascending(lt, bounds) && PartsExport(lt, bounds, rows, outs)
    ensures Exports(lt, rows, Flatten(outs))
  {
    JoinedParts(lt, bounds, rows, outs, |outs|);
    assert outs[..|outs|] == outs;
    PoolIsTable(lt, bounds, rows);
  }

  // ----- the one answer

  ghost predicate DistinctKeys<K, V>(rows: multiset<Row<K, V>>) {
    && (forall a, b :: a in rows && b in rows && a.key.Some? && a.key == b.key ==> a == b)
    && (forall a :: a in rows && a.key.Some? ==> rows[a] == 1)
  }

  /** The rows before the first NULL key, and the rest. */
  function Keyed<K, V>(out: seq<Row<K, V>>): seq<Row<K, V>> {
    if out == [] || out[0].key.None? then [] else [out[0]] + Keyed(out[1..])
  }

  function Unkeyed<K, V>(out: seq<Row<K, V>>): seq<Row<K, V>> {
    if out == [] || out[0].key.None? then out else Unkeyed(out[1..])
  }

  lemma {:induction false} KeyedThenNull<K, V>(lt: (K, K) -> bool, out: seq<Row<K, V>>)
    requires InOrder(lt, out)
    ensures out == Keyed(out) + Unkeyed(out)
    ensures forall r :: r in Keyed(out) ==> r.key.Some?
    ensures forall r :: r in Unkeyed(out) ==> r.key.None?
  {
    if out != [] {
      if out[0].key.Some? {
        KeyedThenNull(lt, out[1..]);
        assert out == [out[0]] + out[1..];
        assert [out[0]] + (Keyed(out[1..]) + Unkeyed(out[1..])) == Keyed(out) + Unkeyed(out);
      } else {
        forall i | 0 <= i < |out|
          ensures out[i].key.None?
        {
          assert i > 0 ==> MayPrecede(lt, out[0].key, out[i].key);
        }
      }
    }
  }

  /** Two ordered answers for one table with distinct keys agree on every row whose key is not
      NULL, in order; and the rest of each is the NULL rows, which ORDER BY leaves in any order. */
  lemma {:induction false} OneOrderedAnswer<K(!new), V>(lt: (K, K) -> bool, a: seq<Row<K, V>>, b: seq<Row<K, V>>)
    requires StrictOrder(lt) && InOrder(lt, a) && InOrder(lt, b)
    requires multiset(a) == multiset(b) && DistinctKeys(multiset(a))
    ensures Keyed(a) == Keyed(b) && multiset(Unkeyed(a)) == multiset(Unkeyed(b))
    decreases |a|
  {
    assert |a| == |multiset(a)| && |b| == |multiset(b)|;
    if a != [] && (a[0].key.Some? || b[0].key.Some?) {
      SameFirst(lt, a, b);
      KeyedTail(lt, a);
      KeyedTail(lt, b);
      DistinctRest(a, a[1..]);
      OneOrderedAnswer(lt, a[1..], b[1..]);
    }
  }

  lemma KeyedTail<K, V>(lt: (K, K) -> bool, a: seq<Row<K, V>>)
    requires a != [] && a[0].key.Some? && InOrder(lt, a)
    ensures Keyed(a) == [a[0]] + Keyed(a[1..]) && Unkeyed(a) == Unkeyed(a[1..])
    ensures InOrder(lt, a[1..]) && multiset(a[1..]) == multiset(a) - multiset{a[0]}
  {
    RemoveFirst(a);
  }

  lemma DistinctRest<K, V>(a: seq<Row<K, V>>, rest: seq<Row<K, V>>)
    requires a != [] && DistinctKeys(multiset(a)) && multiset(rest) == multiset(a) - multiset{a[0]}
    requires a[0].key.Some?
    ensures DistinctKeys(multiset(rest))
  {
    forall x | x in multiset(rest) && x.key.Some?
      ensures multiset(rest)[x] == 1
    {
      assert x in multiset(a);
    }
  }

  lemma SameFirst<K(!new), V>(lt: (K, K) -> bool, a: seq<Row<K, V>>, b: seq<Row<K, V>>)
    requires StrictOrder(lt) && InOrder(lt, a) && InOrder(lt, b) && a != [] && b != []
    requires multiset(a) == multiset(b) && DistinctKeys(multiset(a))
    requires a[0].key.Some? || b[0].key.Some?
    ensures a[0] == b[0] && a[0].key.Some?
  {
    assert a[0] in multiset(b) && b[0] in multiset(a);
    var i :| 0 <= i < |b| && b[i] == a[0];
    var j :| 0 <= j < |a| && a[j] == b[0];
    if i > 0 {
      assert MayPrecede(lt, b[0].key, a[0].key);
    }
    if j > 0 {
      assert MayPrecede(lt, a[0].key, b[0].key);
    }
  }

  /** So with distinct keys and at most one NULL, what the parts print, one after another, is what
      the serial export prints. */
  lemma PartsEqualSerial<K(!new), V(!new)>(lt: (K, K) -> bool, bounds: seq<K>, rows: seq<Row<K, V>>,
      outs: seq<seq<Row<K, V>>>, serial: seq<Row<K, V>>)
    requires StrictOrder(lt) && Ascending(lt, bounds) && PartsExport(lt, bounds, rows, outs)
             && Exports(lt, rows, serial)
    requires DistinctKeys(multiset(rows))
    ensures Keyed(Flatten(outs)) == Keyed(serial) && multiset(Unkeyed(Flatten(outs))) == multiset(Unkeyed(serial))
    ensures |Unkeyed(serial)| <= 1 ==> Flatten(outs) == serial
  {
    PartsAreAnExport(lt, bounds, rows, outs);
    AnswersEqual(lt, rows, Flatten(outs), serial);
  }

  lemma AnswersEqual<K(!new), V(!new)>(lt: (K, K) -> bool, rows: seq<Row<K, V>>, out: seq<Row<K, V>>,
      serial: seq<Row<K, V>>)
    requires StrictOrder(lt) && Exports(lt, rows, out) && Exports(lt, rows, serial) && DistinctKeys(multiset(rows))
    ensures Keyed(out) == Keyed(serial) && multiset(Unkeyed(out)) == multiset(Unkeyed(serial))
    ensures |Unkeyed(serial)| <= 1 ==> out == serial
  {
    OneOrderedAnswer(lt, out, serial);
    KeyedThenNull(lt, out);
    KeyedThenNull(lt, serial);
    if |Unkeyed(serial)| <= 1 {
      SameSingle(Unkeyed(serial), Unkeyed(out));
    }
  }

  lemma SameSingle<T>(a: seq<T>, b: seq<T>)
    requires |a| <= 1 && multiset(a) == multiset(b)
    ensures a == b
  {
    assert |b| == |multiset(b)| == |multiset(a)| == |a|;
    if a != [] {
      assert a[0] in multiset(b);
    }
  }

  // ----- the 2.x mapping, guarded

  /** A share of the 2.x ledger: the header its id ends in, whether it is accepted, whether its id
      matches the pattern, and its sequence number. */
  datatype Share<K, V> = Share(header: Option<K>, accepted: bool, matches: Truth, seqno: int, id: V)

  /** `accepted AND share_id ~ pattern`, in the serial script. */
  predicate Kept<K, V>(s: Share<K, V>) {
    AndOf(Holds(s.accepted), s.matches) == Yes
  }

  /** `accepted AND CASE WHEN guard THEN share_id ~ pattern END`, in the part for one range. */
  predicate Guarded<K, V>(lt: (K, K) -> bool, bounds: seq<K>, k: nat, s: Share<K, V>)
    requires k <= |bounds|
  {
    AndOf(Holds(s.accepted), if Selects(lt, bounds, k, s.header) then s.matches else Unknown) == Yes
  }

  /** The serial script keeps accepted shares whose id matches, and a part those of them in its range. */
  lemma KeepsExactly<K, V>(lt: (K, K) -> bool, bounds: seq<K>, k: nat, s: Share<K, V>)
    requires k <= |bounds|
    ensures Kept(s) <==> s.accepted && s.matches == Yes
    ensures Guarded(lt, bounds, k, s) <==>
            && s.accepted && s.matches == Yes
            && if s.header.None? then k == |bounds|
               else (k > 0 ==> !lt(s.header.value, bounds[k - 1])) && (k < |bounds| ==> lt(s.header.value, bounds[k]))
  {
    SelectsMeans(lt, bounds, k, s.header);
  }

  /** `DISTINCT ON (header) ... ORDER BY header, share_seq`: the first kept share of its header. */
  ghost predicate First<K(!new), V(!new)>(keep: Share<K, V> -> bool, ledger: seq<Share<K, V>>, s: Share<K, V>) {
    s in ledger && keep(s) &&
    forall t :: t in ledger && keep(t) && t.header == s.header && t != s ==> s.seqno < t.seqno
  }

  /** A part that tests the range before the pattern maps exactly the headers of its range, each to
      the share the whole mapping gives it: the guard never changes which share comes first. */
  lemma GuardedMapping<K(!new), V(!new)>(lt: (K, K) -> bool, bounds: seq<K>, k: nat, ledger: seq<Share<K, V>>,
      s: Share<K, V>)
    requires k <= |bounds|
    ensures First((t: Share<K, V>) => Guarded(lt, bounds, k, t), ledger, s) && Selects(lt, bounds, k, s.header)
       <==> First((t: Share<K, V>) => Kept(t), ledger, s) && Selects(lt, bounds, k, s.header)
  {
    if Selects(lt, bounds, k, s.header) {
      forall t: Share<K, V> | t.header == s.header
        ensures Guarded(lt, bounds, k, t) == Kept(t)
      {
      }
    }
  }

  // ----- writing the parts

  /** What each row of an answer prints, in order. */
  function Printed<K, B>(rows: seq<Row<K, seq<B>>>): seq<B> {
    FlatMap((r: Row<K, seq<B>>) => r.printed, rows)
  }

  /** The parts, in the serial export's order. */
  function Parts<T>(shares: seq<T>, middle: T, hashes: seq<T>, tail: T): (parts: seq<T>)
    ensures |parts| == |shares| + |hashes| + 2
  {
    shares + [middle] + hashes + [tail]
  }

  /** The order the parts are submitted in: the closing kinds, the kinds between, then the rest. */
  function Submitted(shares: nat, hashes: nat): (order: seq<nat>)
    ensures |order| == shares + hashes + 2
    ensures forall k :: k in order <==> 0 <= k < shares + hashes + 2
  {
    var middle, last := shares, shares + hashes + 1;
    [last, middle] + From(0, middle) + From(middle + 1, hashes)
  }

  /** `range(start, start + count)` */
  function From(start: nat, count: nat): (order: seq<nat>)
    ensures |order| == count
    ensures forall k :: k in order <==> start <= k < start + count
  {
    if count == 0 then [] else From(start, count - 1) + [start + count - 1]
  }

  /** What may go wrong: a session fails, the commit fails, or copying a part stops after some of it. */
  datatype Faults = Faults(sessions: set<nat>, commit: bool, copies: map<nat, nat>)

  /** The writing loop of `export`. `parts` is what each session prints when it succeeds, and
      `completed` the order the sessions end in. `closing` tells a fault while the last part, which
      ends with the completion marker, was being copied. */
  method Export<B>(shares: nat, hashes: nat, parts: seq<seq<B>>, completed: seq<nat>, faults: Faults)
      returns (ok: bool, closing: bool, out: seq<B>)
    requires |parts| == shares + hashes + 2
    requires forall k :: k in completed <==> k in Submitted(shares, hashes)
    ensures ok <==> !faults.commit && forall k :: 0 <= k < |parts| ==> k !in faults.sessions && k !in faults.copies
    ensures ok ==> out == Flatten(parts)
    ensures !ok ==> out <= Flatten(parts)
    ensures !ok && !closing ==> out <= Flatten(parts[..|parts| - 1])
    ensures closing ==> |parts| - 1 in faults.copies
  {
    var last := |parts| - 1;
    var done: set<nat> := {};
    var written := 0;
    var i := 0;
    ok, closing, out := false, false, [];
    while i < |completed|
      invariant 0 <= i <= |completed| && 0 <= written <= last
      invariant done == set k | k in completed[..i]
      invariant written < last ==> written !in done
      invariant done !! faults.sessions
      invariant forall k :: 0 <= k < written ==> k !in faults.copies
      invariant out == Flatten(parts[..written])
    {
      var index := completed[i];
      assert index in Submitted(shares, hashes);
      if index in faults.sessions {
        PrefixOfFlatten(parts, written, last);
        return;
      }
      done := done + {index};
      assert completed[..i + 1] == completed[..i] + [index];
      while written < last && written in done
        invariant 0 <= written <= last
        invariant forall k :: 0 <= k < written ==> k !in faults.copies
        invariant out == Flatten(parts[..written])
      {
        FlattenStep(parts, written);
        if written in faults.copies {
          var copied := Least(faults.copies[written], |parts[written]|);
          PartialCopy(parts, written, last, copied);
          out := out + parts[written][..copied];
          return;
        }
        out := out + parts[written];
        written := written + 1;
      }
      i := i + 1;
    }
    assert completed[..i] == completed;
    PrefixOfFlatten(parts, last, last);
    FlattenStep(parts, last);
    assert parts[..last + 1] == parts;
    if faults.commit {
      return;
    }
    if last in faults.copies {
      closing := true;
      out := out + parts[last][..Least(faults.copies[last], |parts[last]|)];
      return;
    }
    ok, out := true, out + parts[last];
  }

  lemma {:induction false} FlattenGrows<T>(ss: seq<seq<T>>, n: nat, last: nat)
    requires n <= last <= |ss|
    ensures Flatten(ss[..n]) <= Flatten(ss[..last])
    decreases last
  {
    if n < last {
      FlattenGrows(ss, n, last - 1);
      FlattenStep(ss, last - 1);
    }
  }

  lemma PrefixOfFlatten<T>(ss: seq<seq<T>>, n: nat, last: nat)
    requires n <= last <= |ss|
    ensures Flatten(ss[..n]) <= Flatten(ss[..last]) <= Flatten(ss)
  {
    FlattenGrows(ss, n, last);
    FlattenGrows(ss, last, |ss|);
    assert ss[..|ss|] == ss;
  }

  /** Stopping part of the way through a part. */
  lemma PartialCopy<T>(ss: seq<seq<T>>, n: nat, last: nat, copied: nat)
    requires n < last <= |ss| && copied <= |ss[n]|
    ensures Flatten(ss[..n]) + ss[n][..copied] <= Flatten(ss[..last]) <= Flatten(ss)
  {
    PrefixOfFlatten(ss, n + 1, last);
    FlattenStep(ss, n);
  }

  lemma FlattenStep<T>(ss: seq<seq<T>>, n: nat)
    requires n < |ss|
    ensures Flatten(ss[..n + 1]) == Flatten(ss[..n]) + ss[n]
  {
    assert ss[..n + 1][..n] == ss[..n];
  }

  /** What each session prints for its ordered answer. */
  function Prints<K, B>(outs: seq<seq<Row<K, seq<B>>>>): (prints: seq<seq<B>>)
    ensures |prints| == |outs|
  {
    if outs == [] then [] else Prints(outs[..|outs| - 1]) + [Printed(outs[|outs| - 1])]
  }

  lemma {:induction false} PrintsFlatten<K, B>(outs: seq<seq<Row<K, seq<B>>>>)
    ensures Flatten(Prints(outs)) == Printed(Flatten(outs))
  {
    if outs != [] {
      PrintsFlatten(outs[..|outs| - 1]);
      FlatMapAppend((r: Row<K, seq<B>>) => r.printed, Flatten(outs[..|outs| - 1]), outs[|outs| - 1]);
    }
  }

  lemma {:induction false} FlattenAppend<T>(a: seq<seq<T>>, b: seq<seq<T>>)
    ensures Flatten(a + b) == Flatten(a) + Flatten(b)
  {
    if b == [] {
      assert a + b == a;
    } else {
      var n := |b| - 1;
      assert (a + b)[..|a| + n] == a + b[..n];
      FlattenAppend(a, b[..n]);
      Associate(Flatten(a), Flatten(b[..n]), b[n]);
    }
  }

  lemma FlattenParts<T>(shares: seq<seq<T>>, middle: seq<T>, hashes: seq<seq<T>>, tail: seq<T>)
    ensures Flatten(Parts(shares, middle, hashes, tail)) == Flatten(shares) + middle + Flatten(hashes) + tail
  {
    FlattenAppend(shares + [middle] + hashes, [tail]);
    FlattenAppend(shares + [middle], hashes);
    FlattenAppend(shares, [middle]);
  }

  /** The parts' output, one after another, is the serial export's, whatever boundaries were sampled. */
  lemma PartsPrintSerial<S(!new), H(!new), B(!new)>(
      shareLt: (S, S) -> bool, shareBounds: seq<S>, shares: seq<Row<S, seq<B>>>, shareOuts: seq<seq<Row<S, seq<B>>>>,
      serialShares: seq<Row<S, seq<B>>>,
      hashLt: (H, H) -> bool, hashBounds: seq<H>, hashes: seq<Row<H, seq<B>>>, hashOuts: seq<seq<Row<H, seq<B>>>>,
      serialHashes: seq<Row<H, seq<B>>>,
      middle: seq<B>, tail: seq<B>)
    requires StrictOrder(shareLt) && Ascending(shareLt, shareBounds) && DistinctKeys(multiset(shares))
    requires PartsExport(shareLt, shareBounds, shares, shareOuts) && Exports(shareLt, shares, serialShares)
    requires StrictOrder(hashLt) && Ascending(hashLt, hashBounds) && DistinctKeys(multiset(hashes))
    requires PartsExport(hashLt, hashBounds, hashes, hashOuts) && Exports(hashLt, hashes, serialHashes)
    requires |Unkeyed(serialShares)| <= 1 && |Unkeyed(serialHashes)| <= 1
    ensures Flatten(Parts(Prints(shareOuts), middle, Prints(hashOuts), tail))
         == Printed(serialShares) + middle + Printed(serialHashes) + tail
  {
    PartsEqualSerial(shareLt, shareBounds, shares, shareOuts, serialShares);
    PartsEqualSerial(hashLt, hashBounds, hashes, hashOuts, serialHashes);
    PrintsFlatten(shareOuts);
    PrintsFlatten(hashOuts);
    FlattenParts(Prints(shareOuts), middle, Prints(hashOuts), tail);
  }
}
