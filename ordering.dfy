/**
 * Display order of the registry: the brand a location belongs to
 * (`brand_of`), the brand and location ranks (`BRAND_ORDER`, `LOC_ORDER`),
 * the sort key (`sort_key`) and `sorted(RESTAURANTS, key=sort_key)`.
 */
module Ordering {
  import opened Wrappers
  import opened Text
  import opened Registry

  const BrandOrder: map<string, int> := map["Burgers" := 1, "Smash" := 2, "Tacos" := 3]

  /** Location keywords with their rank, in the dictionary's insertion order. */
  const LocOrder: seq<(string, int)> :=
    [("militari", 1), ("olteni", 2), ("olteniț", 2), ("mosilor", 3), ("moșilor", 3), ("pipera", 4)]

  /** The rank given by `.get(…, 99)` and by `loc_score` when nothing matches. */
  const Unranked: int := 99

  /** `brand_of`: "taco" wins over "smash", and anything else is a burger place. */
  function BrandOf(location: string): (b: string)
    ensures b in BrandOrder
  {
    var l := Lower(location);
    if Contains(l, "taco") then "Tacos"
    else if Contains(l, "smash") then "Smash"
    else "Burgers"
  }

  /** Which brand a location gets, in terms of the keywords its lower-cased form contains. */
  lemma BrandOfCases(location: string)
    ensures BrandOf(location) == "Tacos" <==> Contains(Lower(location), "taco")
    ensures BrandOf(location) == "Smash" <==> !Contains(Lower(location), "taco") && Contains(Lower(location), "smash")
    ensures BrandOf(location) == "Burgers" <==> !Contains(Lower(location), "taco") && !Contains(Lower(location), "smash")
  {
  }

  /** `BRAND_ORDER.get(brand_of(location), 99)`: never the default. */
  function BrandRank(location: string): (r: int)
    ensures 1 <= r <= 3 && r != Unranked
  {
    var b := BrandOf(location);
    if b in BrandOrder then BrandOrder[b] else Unranked
  }

  /** Taco places rank last among the brands, and only they do. */
  lemma BrandRankOfTacos(location: string)
    ensures BrandRank(location) == 3 <==> Contains(Lower(location), "taco")
  {
    BrandOfCases(location);
  }

  /** The first position at or after `from` whose keyword occurs in `loc`. */
  function FirstKeyword(loc: string, from: nat): (r: Option<nat>)
    decreases |LocOrder| - from
    ensures r.Some? ==> from <= r.value < |LocOrder| && Contains(loc, LocOrder[r.value].0)
    ensures forall j :: from <= j < |LocOrder| && (r.None? || j < r.value) ==> !Contains(loc, LocOrder[j].0)
  {
    if from >= |LocOrder| then None
    else if Contains(loc, LocOrder[from].0) then Some(from)
    else FirstKeyword(loc, from + 1)
  }

  /** `loc_score`: the rank of the first keyword found in the lower-cased location, or 99. */
  function LocScore(loc: string): (r: int)
    ensures r == Unranked <==> forall j :: 0 <= j < |LocOrder| ==> !Contains(loc, LocOrder[j].0)
    ensures r != Unranked ==>
      exists i :: (0 <= i < |LocOrder| && Contains(loc, LocOrder[i].0) && r == LocOrder[i].1
                   && forall j :: 0 <= j < i ==> !Contains(loc, LocOrder[j].0))
  {
    match FirstKeyword(loc, 0)
    case None => Unranked
    case Some(i) => LocOrder[i].1
  }

  /**
   * The "olteniț" entry never decides a rank: every location containing it
   * contains "olteni", which comes first and has the same rank.
   */
  lemma OltenitEntryIsShadowed(loc: string)
    requires Contains(loc, LocOrder[2].0)
    ensures FirstKeyword(loc, 0).Some? && FirstKeyword(loc, 0).value < 2
    ensures LocScore(loc) <= 2
  {
    assert LocOrder[2].0[..6] == LocOrder[1].0;
    ContainsPrefix(loc, LocOrder[2].0, 6);
  }

  // ── the sort key ──────────────────────────────────────────────────────────

  /** The tuple `(platform != "Bolt", brand rank, location rank, location)`. */
  datatype Key = Key(notBolt: bool, brand: int, loc: int, location: string)

  function KeyOf(e: Entry): Key
  {
    Key(e.platform != "Bolt", BrandRank(e.location), LocScore(Lower(e.location)), e.location)
  }

  /**
   * `sort_key(item)`: the brand rank, then the location rank found by
   * scanning LOC_ORDER and stopping at the first keyword that occurs.
   */
  method SortKey(e: Entry) returns (k: Key)
    ensures k == KeyOf(e)
    ensures k.notBolt <==> e.platform != "Bolt"
    ensures k.brand != Unranked
    ensures k.loc == Unranked <==> forall j :: 0 <= j < |LocOrder| ==> !Contains(Lower(e.location), LocOrder[j].0)
  {
    var b := BrandRank(e.location);
    var loc := Lower(e.location);
    var locScore := Unranked;
    for i := 0 to |LocOrder|
      invariant locScore == Unranked
      invariant forall j :: 0 <= j < i ==> !Contains(loc, LocOrder[j].0)
    {
      if Contains(loc, LocOrder[i].0) {
        locScore := LocOrder[i].1;
        break;
      }
    }
    k := Key(e.platform != "Bolt", b, locScore, e.location);
  }

  /** Python's `<=` on strings: lexicographic by code point. */
  predicate StrLe(a: string, b: string)
  {
    a == [] || (b != [] && (a[0] < b[0] || (a[0] == b[0] && StrLe(a[1..], b[1..]))))
  }

  lemma {:induction false} StrLeTotal(a: string, b: string)
    ensures StrLe(a, b) || StrLe(b, a)
  {
    if a != [] && b != [] && a[0] == b[0] {
      StrLeTotal(a[1..], b[1..]);
    }
  }

  lemma {:induction false} StrLeTransitive(a: string, b: string, c: string)
    requires StrLe(a, b) && StrLe(b, c)
    ensures StrLe(a, c)
  {
    if a != [] && b != [] && c != [] && a[0] == b[0] == c[0] {
      StrLeTransitive(a[1..], b[1..], c[1..]);
    }
  }

  lemma {:induction false} StrLeAntisymmetric(a: string, b: string)
    requires StrLe(a, b) && StrLe(b, a)
    ensures a == b
  {
    if a != [] && b != [] {
      StrLeAntisymmetric(a[1..], b[1..]);
    }
  }

  /** Python's `<=` on the key tuples: element by element, `False` before `True`. */
  predicate KeyLe(x: Key, y: Key)
  {
    || (!x.notBolt && y.notBolt)
    || (x.notBolt == y.notBolt &&
        (|| x.brand < y.brand
         || (x.brand == y.brand &&
             (x.loc < y.loc || (x.loc == y.loc && StrLe(x.location, y.location))))))
  }

  /** Key order is a total order: any two keys compare, and the comparison chains. */
  lemma KeyLeTotalOrder(x: Key, y: Key, z: Key)
    ensures KeyLe(x, y) || KeyLe(y, x)
    ensures KeyLe(x, y) && KeyLe(y, z) ==> KeyLe(x, z)
    ensures KeyLe(x, y) && KeyLe(y, x) ==> x == y
  {
    StrLeTotal(x.location, y.location);
    if KeyLe(x, y) && KeyLe(y, z) && x.notBolt == y.notBolt == z.notBolt
      && x.brand == y.brand == z.brand && x.loc == y.loc == z.loc {
      StrLeTransitive(x.location, y.location, z.location);
    }
    if KeyLe(x, y) && KeyLe(y, x) {
      StrLeAntisymmetric(x.location, y.location);
    }
  }

  /** Every Bolt entry sorts strictly before every entry of another platform. */
  lemma BoltBeforeOthers(a: Entry, b: Entry)
    requires a.platform == "Bolt" && b.platform != "Bolt"
    ensures KeyLe(KeyOf(a), KeyOf(b)) && !KeyLe(KeyOf(b), KeyOf(a))
  {
  }

  // ── sorted() ──────────────────────────────────────────────────────────────

  /** `s` is in ascending key order. */
  predicate SortedBy(s: seq<Entry>, key: Entry -> Key)
  {
    forall i, j :: 0 <= i < j < |s| ==> KeyLe(key(s[i]), key(s[j]))
  }

  /** Put `x` in front of the first element whose key is not smaller. */
  function Insert(x: Entry, s: seq<Entry>, key: Entry -> Key): (r: seq<Entry>)
    ensures multiset(r) == multiset(s) + multiset{x}
  {
    if s == [] then [x]
    else if KeyLe(key(x), key(s[0])) then [x] + s
    else
      assert s == [s[0]] + s[1..];
      [s[0]] + Insert(x, s[1..], key)
  }

  /** Inserting `x` into the tail keeps the head a lower bound when it is not above `x`. */
  lemma InsertTailAboveHead(x: Entry, s: seq<Entry>, key: Entry -> Key)
    requires SortedBy(s, key) && s != [] && KeyLe(key(s[0]), key(x))
    ensures forall j :: 0 <= j < |Insert(x, s[1..], key)| ==> KeyLe(key(s[0]), key(Insert(x, s[1..], key)[j]))
  {
    var t := Insert(x, s[1..], key);
    forall j | 0 <= j < |t| ensures KeyLe(key(s[0]), key(t[j])) {
      assert t[j] in multiset(t);
      if t[j] != x {
        assert t[j] in multiset(s[1..]);
        var k :| 0 <= k < |s[1..]| && s[1..][k] == t[j];
        assert s[k + 1] == t[j];
      }
    }
  }

  lemma {:induction false} InsertSorted(x: Entry, s: seq<Entry>, key: Entry -> Key)
    requires SortedBy(s, key)
    ensures SortedBy(Insert(x, s, key), key)
  {
    if s == [] {
    } else if KeyLe(key(x), key(s[0])) {
      var r := Insert(x, s, key);
      forall i, j | 0 <= i < j < |r| ensures KeyLe(key(r[i]), key(r[j])) {
        if i == 0 {
          KeyLeTotalOrder(key(x), key(s[0]), key(r[j]));
        } else {
          assert r[i] == s[i - 1] && r[j] == s[j - 1];
        }
      }
    } else {
      var t := Insert(x, s[1..], key);
      var r := Insert(x, s, key);
      assert r == [s[0]] + t;
      InsertSorted(x, s[1..], key);
      KeyLeTotalOrder(key(x), key(s[0]), key(x));
      InsertTailAboveHead(x, s, key);
      forall i, j | 0 <= i < j < |r| ensures KeyLe(key(r[i]), key(r[j])) {
        if i == 0 {
          assert r[j] == t[j - 1];
        } else {
          assert r[i] == t[i - 1] && r[j] == t[j - 1];
        }
      }
    }
  }

  /**
   * `sorted(items, key=key)`: an insertion sort that keeps entries with
   * equal keys in their original order, as Python's stable sort does.
   */
  function SortBy(s: seq<Entry>, key: Entry -> Key): (r: seq<Entry>)
    ensures multiset(r) == multiset(s) && |r| == |s|
    ensures SortedBy(r, key)
  {
    if s == [] then []
    else
      assert s == [s[0]] + s[1..];
      InsertSorted(s[0], SortBy(s[1..], key), key);
      Insert(s[0], SortBy(s[1..], key), key)
  }

  /** `sorted(RESTAURANTS, key=sort_key)` */
  function SortByKey(s: seq<Entry>): (r: seq<Entry>)
    ensures multiset(r) == multiset(s) && |r| == |s|
  {
    SortBy(s, KeyOf)
  }

  /** The display order is ascending in the sort key. */
  lemma SortByKeyIsSorted(s: seq<Entry>)
    ensures forall i, j :: 0 <= i < j < |SortByKey(s)| ==> KeyLe(KeyOf(SortByKey(s)[i]), KeyOf(SortByKey(s)[j]))
  {
    assert SortedBy(SortBy(s, KeyOf), KeyOf);
  }

  /** In display order every Bolt entry comes before every entry of another platform. */
  lemma DisplayOrderPutsBoltFirst(s: seq<Entry>)
    ensures forall i, j :: 0 <= i < j < |SortByKey(s)| && SortByKey(s)[j].platform == "Bolt" ==>
      SortByKey(s)[i].platform == "Bolt"
  {
    var r := SortByKey(s);
    SortByKeyIsSorted(s);
    forall i, j | 0 <= i < j < |r| && r[j].platform == "Bolt" ensures r[i].platform == "Bolt" {
      assert KeyLe(KeyOf(r[i]), KeyOf(r[j]));
      assert KeyOf(r[i]).notBolt == (r[i].platform != "Bolt");
    }
  }
}
