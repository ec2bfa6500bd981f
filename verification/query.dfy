/**
 `url.Values`: a map from parameter name to the list of its values, in the order
 they were added. `Encode` writes it as a query string with the names in
 ascending byte order, one `name=value` pair per value, pairs joined by `&`,
 names and values escaped as query components. `ParseQuery` reads such a
 string back in the manner of `url.ParseQuery`.
 */
module Query {
  import opened Wrappers
  import opened Strings
  import opened Escaping

  type Values = map<GoString, seq<GoString>>

  /** The values recorded for `key`, none when it is absent. */
  function Get(v: Values, key: GoString): seq<GoString> {
    if key in v then v[key] else []
  }

  /** `Values.Add`: appends `value` to the list of `key`. */
  function Add(v: Values, key: GoString, value: GoString): Values {
    v[key := Get(v, key) + [value]]
  }

  /** `Add` records `key`, appends to its list, and leaves every other key alone. */
  lemma AddGet(v: Values, key: GoString, value: GoString, k: GoString)
    ensures Add(v, key, value).Keys == v.Keys + {key}
    ensures Get(Add(v, key, value), k) == Get(v, k) + (if k == key then [value] else [])
  {
    if k != key {
      assert Get(v, k) + [] == Get(v, k);
    }
  }

  /** Adding a name not yet present makes a one-value list. */
  lemma AddFresh(v: Values, key: GoString, value: GoString)
    requires key !in v
    ensures Add(v, key, value) == v[key := [value]]
  {
    assert Get(v, key) + [value] == [value];
  }

  /** One `Add` per element of `values`, in order (the `for _, x := range xs` loops). */
  function AddAll(v: Values, key: GoString, values: seq<GoString>): (r: Values)
    ensures r == if values == [] then v else v[key := Get(v, key) + values]
    decreases |values|
  {
    if |values| == 0 then v
    else
      var w := Add(v, key, values[0]);
      var r := AddAll(w, key, values[1..]);
      assert Get(v, key) + [values[0]] + values[1..] == Get(v, key) + values;
      assert values[1..] == [] ==> values == [values[0]];
      assert w[key := Get(w, key) + values[1..]] == v[key := Get(v, key) + values];
      r
  }

  /** `AddAll` appends the whole list under `key` and leaves every other key alone. */
  lemma AddAllGet(v: Values, key: GoString, values: seq<GoString>, k: GoString)
    ensures Get(AddAll(v, key, values), k) == Get(v, k) + (if k == key then values else [])
  {
    assert Get(v, k) + [] == Get(v, k);
  }

  // ---------------------------------------------------------------------------
  // Sorted keys (slices.Sort over the map's keys)
  // ---------------------------------------------------------------------------

  predicate StrictlyAscending(ks: seq<GoString>) {
    forall i, j | 0 <= i < j < |ks| :: Below(ks[i], ks[j]) && ks[i] != ks[j]
  }

  predicate IsLeast(m: GoString, keys: set<GoString>) {
    m in keys && forall k | k in keys :: Below(m, k)
  }

  lemma {:induction false} LeastExists(keys: set<GoString>)
    requires keys != {}
    ensures exists m: GoString :: IsLeast(m, keys)
    decreases |keys|
  {
    var x :| x in keys;
    if keys - {x} == {} {
      assert keys == {x};
      BelowReflexive(x);
      assert IsLeast(x, keys);
    } else {
      LeastExists(keys - {x});
      var m: GoString :| IsLeast(m, keys - {x});
      BelowTotal(x, m);
      if Below(x, m) {
        forall k | k in keys
          ensures Below(x, k)
        {
          if k == x {
            BelowReflexive(x);
          } else {
            BelowTransitive(x, m, k);
          }
        }
        assert IsLeast(x, keys);
      } else {
        assert IsLeast(m, keys);
      }
    }
  }

  /** The keys of a map in ascending byte order, each once. */
  function SortedKeys(keys: set<GoString>): (r: seq<GoString>)
    ensures |r| == |keys|
    ensures forall k :: k in r <==> k in keys
    ensures StrictlyAscending(r)
    decreases |keys|
  {
    if keys == {} then []
    else
      LeastExists(keys);
      BelowAntisymmetricAll();
      var m: GoString :| IsLeast(m, keys);
      var rest := SortedKeys(keys - {m});
      LeastFirst(m, keys, rest);
      [m] + rest
  }

  lemma LeastFirst(m: GoString, keys: set<GoString>, rest: seq<GoString>)
    requires IsLeast(m, keys)
    requires forall k :: k in rest <==> k in keys - {m}
    requires StrictlyAscending(rest) && |rest| == |keys - {m}|
    ensures forall k :: k in [m] + rest <==> k in keys
    ensures StrictlyAscending([m] + rest) && |[m] + rest| == |keys|
  {
    var r := [m] + rest;
    forall i, j | 0 <= i < j < |r|
      ensures Below(r[i], r[j]) && r[i] != r[j]
    {
      assert r[j] == rest[j - 1] && r[j] in rest;
      if i > 0 {
        assert r[i] == rest[i - 1];
      }
    }
  }

  lemma TailKeys(keys: set<GoString>, ks: seq<GoString>)
    requires ks != [] && StrictlyAscending(ks)
    requires forall k :: k in ks <==> k in keys
    ensures StrictlyAscending(ks[1..])
    ensures forall k :: k in ks[1..] <==> k in keys - {ks[0]}
  {
    var rest := ks[1..];
    forall k
      ensures k in rest <==> k in keys - {ks[0]}
    {
      if k in rest {
        var j :| 0 <= j < |rest| && rest[j] == k;
        assert ks[j + 1] == k;
      }
      if k in keys - {ks[0]} {
        var j :| 0 <= j < |ks| && ks[j] == k;
        assert rest[j - 1] == k;
      }
    }
  }

  /** There is only one ascending enumeration of a set of keys, and `SortedKeys` is it. */
  lemma {:induction false} SortedKeysUnique(keys: set<GoString>, ks: seq<GoString>)
    requires StrictlyAscending(ks)
    requires forall k :: k in ks <==> k in keys
    ensures SortedKeys(keys) == ks
    decreases |ks|
  {
    if ks == [] {
      assert keys == {};
    } else {
      HeadIsLeast(keys, ks);
      SortedKeysStep(keys, ks[0]);
      TailKeys(keys, ks);
      SortedKeysUnique(keys - {ks[0]}, ks[1..]);
      HeadTail(ks);
    }
  }

  lemma HeadTail(ks: seq<GoString>)
    requires ks != []
    ensures [ks[0]] + ks[1..] == ks
  {
  }

  /** `SortedKeys` starts with the least key, whichever way that key is found. */
  lemma SortedKeysStep(keys: set<GoString>, m: GoString)
    requires IsLeast(m, keys)
    ensures SortedKeys(keys) == [m] + SortedKeys(keys - {m})
  {
    var r := SortedKeys(keys);
    assert keys != {};
    BelowAntisymmetricAll();
    assert forall n: GoString :: IsLeast(n, keys) ==> n == m;
  }

  lemma HeadIsLeast(keys: set<GoString>, ks: seq<GoString>)
    requires ks != [] && StrictlyAscending(ks)
    requires forall k :: k in ks <==> k in keys
    ensures IsLeast(ks[0], keys)
  {
    forall k | k in keys
      ensures Below(ks[0], k)
    {
      var j :| 0 <= j < |ks| && ks[j] == k;
      if j == 0 {
        BelowReflexive(k);
      }
    }
  }

  // ---------------------------------------------------------------------------
  // Encoding (Values.Encode)
  // ---------------------------------------------------------------------------

  /** `key` paired with each of `values`, in order. */
  function Tag(key: GoString, values: seq<GoString>): (r: seq<(GoString, GoString)>)
    ensures |r| == |values|
    ensures forall i | 0 <= i < |r| :: r[i] == (key, values[i])
  {
    if values == [] then [] else [(key, values[0])] + Tag(key, values[1..])
  }

  function PairsOf(v: Values, ks: seq<GoString>): seq<(GoString, GoString)> {
    if ks == [] then [] else Tag(ks[0], Get(v, ks[0])) + PairsOf(v, ks[1..])
  }

  /** Every (name, value) pair of `v` in the order `Encode` writes them. */
  function Pairs(v: Values): seq<(GoString, GoString)> {
    PairsOf(v, SortedKeys(v.Keys))
  }

  /** The values paired with `key`, in order. */
  function ValuesFor(ps: seq<(GoString, GoString)>, key: GoString): seq<GoString> {
    if ps == [] then []
    else (if ps[0].0 == key then [ps[0].1] else []) + ValuesFor(ps[1..], key)
  }

  lemma {:induction false} ValuesForAppend(a: seq<(GoString, GoString)>, b: seq<(GoString, GoString)>, key: GoString)
    ensures ValuesFor(a + b, key) == ValuesFor(a, key) + ValuesFor(b, key)
    decreases |a|
  {
    if a == [] {
      assert a + b == b;
    } else {
      var ab := a + b;
      assert ab[0] == a[0] && ab[1..] == a[1..] + b;
      var h := if a[0].0 == key then [a[0].1] else [];
      ValuesForAppend(a[1..], b, key);
      assert ValuesFor(ab, key) == h + (ValuesFor(a[1..], key) + ValuesFor(b, key));
      assert ValuesFor(a, key) == h + ValuesFor(a[1..], key);
    }
  }

  lemma {:induction false} ValuesForTag(k: GoString, values: seq<GoString>, key: GoString)
    ensures ValuesFor(Tag(k, values), key) == if k == key then values else []
    decreases |values|
  {
    if values != [] {
      var t := Tag(k, values);
      assert t[1..] == Tag(k, values[1..]);
      ValuesForTag(k, values[1..], key);
      assert [values[0]] + values[1..] == values;
    }
  }

  lemma {:induction false} ValuesForPairsOf(v: Values, ks: seq<GoString>, key: GoString)
    requires forall i, j | 0 <= i < j < |ks| :: ks[i] != ks[j]
    ensures ValuesFor(PairsOf(v, ks), key) == if key in ks then Get(v, key) else []
    decreases |ks|
  {
    if ks != [] {
      ValuesForAppend(Tag(ks[0], Get(v, ks[0])), PairsOf(v, ks[1..]), key);
      ValuesForTag(ks[0], Get(v, ks[0]), key);
      ValuesForPairsOf(v, ks[1..], key);
      assert key in ks <==> key == ks[0] || key in ks[1..];
      assert forall j | 0 <= j < |ks| - 1 :: ks[1..][j] == ks[j + 1];
    }
  }

  /** A name with n values appears in n pairs, carrying its values in insertion order. */
  lemma PairsKeepValues(v: Values, key: GoString)
    ensures ValuesFor(Pairs(v), key) == Get(v, key)
  {
    ValuesForPairsOf(v, SortedKeys(v.Keys), key);
  }

  /** Every pair's name is at or after the names of the pairs before it. */
  predicate NamesAscending(ps: seq<(GoString, GoString)>) {
    forall i, j | 0 <= i < j < |ps| :: Below(ps[i].0, ps[j].0)
  }

  lemma {:induction false} PairsOfAscending(v: Values, ks: seq<GoString>)
    requires StrictlyAscending(ks)
    ensures NamesAscending(PairsOf(v, ks))
    ensures forall i | 0 <= i < |PairsOf(v, ks)| :: PairsOf(v, ks)[i].0 in ks
    decreases |ks|
  {
    if ks != [] {
      var t := Tag(ks[0], Get(v, ks[0]));
      var rest := PairsOf(v, ks[1..]);
      PairsOfAscending(v, ks[1..]);
      assert PairsOf(v, ks) == t + rest;
      TailNamesAbove(ks, rest);
      AscendingAfter(ks[0], t, rest);
    }
  }

  /** Names drawn from the tail of an ascending list are above its head, and in the list. */
  lemma TailNamesAbove(ks: seq<GoString>, rest: seq<(GoString, GoString)>)
    requires ks != [] && StrictlyAscending(ks)
    requires forall i | 0 <= i < |rest| :: rest[i].0 in ks[1..]
    ensures forall i | 0 <= i < |rest| :: Below(ks[0], rest[i].0) && rest[i].0 in ks
  {
    forall i | 0 <= i < |rest|
      ensures Below(ks[0], rest[i].0) && rest[i].0 in ks
    {
      var j :| 0 <= j < |ks[1..]| && ks[1..][j] == rest[i].0;
      assert ks[j + 1] == rest[i].0;
    }
  }

  /** Pairs all named `k`, followed by ascending pairs named at or after `k`, stay ascending. */
  lemma AscendingAfter(k: GoString, t: seq<(GoString, GoString)>, rest: seq<(GoString, GoString)>)
    requires forall i | 0 <= i < |t| :: t[i].0 == k
    requires NamesAscending(rest)
    requires forall i | 0 <= i < |rest| :: Below(k, rest[i].0)
    ensures NamesAscending(t + rest)
  {
    var ps := t + rest;
    forall i, j | 0 <= i < j < |ps|
      ensures Below(ps[i].0, ps[j].0)
    {
      if j < |t| {
        BelowReflexive(k);
      } else if i >= |t| {
        assert ps[i] == rest[i - |t|] && ps[j] == rest[j - |t|];
      } else {
        assert ps[j] == rest[j - |t|];
      }
    }
  }

  /** The pairs come out with their names in ascending byte order. */
  lemma PairsAscending(v: Values)
    ensures NamesAscending(Pairs(v))
    ensures forall i | 0 <= i < |Pairs(v)| :: Pairs(v)[i].0 in v
  {
    PairsOfAscending(v, SortedKeys(v.Keys));
  }

  lemma {:induction false} PairsOfMembers(v: Values, ks: seq<GoString>)
    ensures forall i | 0 <= i < |PairsOf(v, ks)| ::
      PairsOf(v, ks)[i].0 in ks && PairsOf(v, ks)[i].1 in Get(v, PairsOf(v, ks)[i].0)
    decreases |ks|
  {
    if ks != [] {
      PairsOfMembers(v, ks[1..]);
      var t: seq<(GoString, GoString)> := Tag(ks[0], Get(v, ks[0]));
      var rest: seq<(GoString, GoString)> := PairsOf(v, ks[1..]);
      forall i | 0 <= i < |t| + |rest|
        ensures (t + rest)[i].0 in ks && (t + rest)[i].1 in Get(v, (t + rest)[i].0)
      {
        if i >= |t| {
          assert (t + rest)[i] == rest[i - |t|];
        }
      }
    }
  }

  /** Every name and value held in `v` is a byte string. */
  predicate ByteValues(v: Values) {
    forall k | k in v :: IsBytes(k) && forall j | 0 <= j < |v[k]| :: IsBytes(v[k][j])
  }

  predicate BytePairs(ps: seq<(GoString, GoString)>) {
    forall i | 0 <= i < |ps| :: IsBytes(ps[i].0) && IsBytes(ps[i].1)
  }

  lemma PairsAreBytes(v: Values)
    requires ByteValues(v)
    ensures BytePairs(Pairs(v))
  {
    PairsOfMembers(v, SortedKeys(v.Keys));
  }

  /** One `name=value` item, both escaped as query components. */
  function Item(p: (GoString, GoString)): (r: GoString)
    ensures '&' !in r && |r| > 0
  {
    QueryEscapeHasNoSeparator(p.0);
    QueryEscapeHasNoSeparator(p.1);
    Escape(p.0, QueryComponent) + "=" + Escape(p.1, QueryComponent)
  }

  function Items(ps: seq<(GoString, GoString)>): (r: seq<GoString>)
    ensures |r| == |ps|
    ensures forall i | 0 <= i < |r| :: r[i] == Item(ps[i])
  {
    if ps == [] then [] else [Item(ps[0])] + Items(ps[1..])
  }

  /** `Values.Encode`. */
  function Encode(v: Values): GoString {
    if |v| == 0 then "" else Join(Items(Pairs(v)), '&')
  }

  // ---------------------------------------------------------------------------
  // Reading an encoded query back
  // ---------------------------------------------------------------------------

  /**
   The pairs of a query string in order: split at each `&`, skip empty items, split
   each item at its first `=` (a missing `=` means an empty value) and unescape both
   halves. Any bad escape rejects the whole string.
   */
  function ParseQuery(s: GoString): Option<seq<(GoString, GoString)>>
    decreases |s|
  {
    if s == "" then Some([])
    else
      var (item, rest, _) := Cut(s, '&');
      if item == "" then ParseQuery(rest)
      else
        var (k, x, _) := Cut(item, '=');
        match (Unescape(k, QueryComponent), Unescape(x, QueryComponent), ParseQuery(rest))
        case (Some(key), Some(value), Some(more)) => Some([(key, value)] + more)
        case _ => None
  }

  lemma ParseItem(p: (GoString, GoString))
    requires IsBytes(p.0) && IsBytes(p.1)
    ensures Cut(Item(p), '=') == (Escape(p.0, QueryComponent), Escape(p.1, QueryComponent), true)
    ensures Unescape(Escape(p.0, QueryComponent), QueryComponent) == Some(p.0)
    ensures Unescape(Escape(p.1, QueryComponent), QueryComponent) == Some(p.1)
  {
    QueryEscapeHasNoSeparator(p.0);
    CutAt(Escape(p.0, QueryComponent), '=', Escape(p.1, QueryComponent));
    UnescapeEscape(p.0, QueryComponent);
    UnescapeEscape(p.1, QueryComponent);
  }

  /** One item followed by `&` and more reads as its pair in front of what the rest reads as. */
  lemma ParseItemThen(p: (GoString, GoString), rest: GoString)
    requires IsBytes(p.0) && IsBytes(p.1)
    ensures ParseQuery(Item(p) + ['&'] + rest) == Prepend(p, ParseQuery(rest))
  {
    CutAt(Item(p), '&', rest);
    ParseItem(p);
  }

  /** A single item reads as its pair. */
  lemma ParseItemAlone(p: (GoString, GoString))
    requires IsBytes(p.0) && IsBytes(p.1)
    ensures ParseQuery(Item(p)) == Some([p])
  {
    CutAbsent(Item(p), '&');
    ParseItem(p);
    assert ParseQuery("") == Some([]);
    assert [p] + [] == [p];
  }

  lemma {:induction false} ParseJoinedItems(ps: seq<(GoString, GoString)>)
    requires BytePairs(ps)
    ensures ParseQuery(Join(Items(ps), '&')) == Some(ps)
    decreases |ps|
  {
    var items := Items(ps);
    if |ps| == 1 {
      assert Join(items, '&') == items[0];
      ParseItemAlone(ps[0]);
      assert ps == [ps[0]];
    } else if |ps| > 1 {
      assert Items(ps[1..]) == items[1..];
      ParseItemThen(ps[0], Join(items[1..], '&'));
      ParseJoinedItems(ps[1..]);
      assert [ps[0]] + ps[1..] == ps;
    }
  }

  /** Reading the encoded query gives back exactly the pairs, in encoding order. */
  lemma ParseEncode(v: Values)
    requires ByteValues(v)
    ensures ParseQuery(Encode(v)) == Some(Pairs(v))
  {
    PairsAreBytes(v);
    if |v| == 0 {
      assert v.Keys == {};
      assert SortedKeys(v.Keys) == [];
    } else {
      ParseJoinedItems(Pairs(v));
    }
  }

  /** The query is empty exactly when no name carries a value. */
  lemma EncodeEmpty(v: Values)
    ensures Encode(v) == "" <==> Pairs(v) == []
  {
    if |v| == 0 {
      assert v.Keys == {};
    } else if Pairs(v) != [] {
      var items := Items(Pairs(v));
      assert |items[0]| > 0;
      if |items| > 1 {
        assert Join(items, '&') == items[0] + ['&'] + Join(items[1..], '&');
      }
    } else {
      assert Join(Items(Pairs(v)), '&') == "";
    }
  }

  /** Text that query escaping leaves as it is. */
  predicate PlainText(s: GoString) {
    forall i | 0 <= i < |s| :: Unreserved(s[i])
  }

  lemma PlainItem(key: GoString, value: GoString)
    requires PlainText(key) && PlainText(value)
    ensures Item((key, value)) == key + "=" + value
  {
  }

  /** One name with one value is written `name=value`. */
  lemma EncodeSingle(key: GoString, value: GoString)
    requires PlainText(key) && PlainText(value)
    ensures Encode(map[key := [value]]) == key + "=" + value
  {
    var v := map[key := [value]];
    SortedKeysUnique(v.Keys, [key]);
    assert Pairs(v) == Tag(key, [value]) + PairsOf(v, []);
    assert Pairs(v) == [(key, value)];
    PlainItem(key, value);
  }

  lemma PairsOfPair(k1: GoString, x1: GoString, k2: GoString, x2: GoString)
    requires k1 != k2 && Below(k1, k2)
    ensures Pairs(map[k1 := [x1], k2 := [x2]]) == [(k1, x1), (k2, x2)]
  {
    var v := map[k1 := [x1], k2 := [x2]];
    assert v.Keys == {k1, k2};
    SortedKeysUnique(v.Keys, [k1, k2]);
    assert [k1, k2][1..] == [k2];
    assert PairsOf(v, [k2]) == Tag(k2, [x2]) + PairsOf(v, []);
    assert Pairs(v) == Tag(k1, [x1]) + PairsOf(v, [k2]);
  }

  lemma JoinPair(a: GoString, b: GoString, sep: char)
    ensures Join([a, b], sep) == a + [sep] + b
  {
    assert [a, b][1..] == [b];
  }

  /** Two names with one value each are written in ascending order of name, joined by `&`. */
  lemma EncodePair(k1: GoString, x1: GoString, k2: GoString, x2: GoString)
    requires PlainText(k1) && PlainText(x1) && PlainText(k2) && PlainText(x2)
    requires k1 != k2 && Below(k1, k2)
    ensures Encode(map[k1 := [x1], k2 := [x2]]) == k1 + "=" + x1 + "&" + k2 + "=" + x2
  {
    var v := map[k1 := [x1], k2 := [x2]];
    assert |v| != 0 by { assert k1 in v; }
    PairsOfPair(k1, x1, k2, x2);
    ItemsPair(k1, x1, k2, x2);
    JoinPair(k1 + "=" + x1, k2 + "=" + x2, '&');
    PairConcat(k1 + "=" + x1, k2, x2);
  }

  lemma ItemsPair(k1: GoString, x1: GoString, k2: GoString, x2: GoString)
    requires PlainText(k1) && PlainText(x1) && PlainText(k2) && PlainText(x2)
    ensures Items([(k1, x1), (k2, x2)]) == [k1 + "=" + x1, k2 + "=" + x2]
  {
    PlainItem(k1, x1);
    PlainItem(k2, x2);
  }

  lemma PairConcat(a: GoString, k2: GoString, x2: GoString)
    ensures a + ['&'] + (k2 + "=" + x2) == a + "&" + k2 + "=" + x2
  {
  }

  /** One name with two values is written twice, the values in the order they were added. */
  lemma EncodeRepeated(k: GoString, x1: GoString, x2: GoString)
    requires PlainText(k) && PlainText(x1) && PlainText(x2)
    ensures Encode(map[k := [x1, x2]]) == k + "=" + x1 + "&" + k + "=" + x2
  {
    var v := map[k := [x1, x2]];
    assert |v| != 0 by { assert k in v; }
    PairsOfRepeated(k, x1, x2);
    ItemsPair(k, x1, k, x2);
    JoinPair(k + "=" + x1, k + "=" + x2, '&');
    PairConcat(k + "=" + x1, k, x2);
  }

  lemma PairsOfRepeated(k: GoString, x1: GoString, x2: GoString)
    ensures Pairs(map[k := [x1, x2]]) == [(k, x1), (k, x2)]
  {
    var v := map[k := [x1, x2]];
    assert v.Keys == {k};
    SortedKeysUnique(v.Keys, [k]);
    assert PairsOf(v, [k]) == Tag(k, [x1, x2]) + PairsOf(v, []);
  }

  lemma {:induction false} PairsOfEmpty(v: Values, ks: seq<GoString>)
    ensures PairsOf(v, ks) == [] <==> forall k | k in ks :: Get(v, k) == []
    decreases |ks|
  {
    if ks != [] {
      PairsOfEmpty(v, ks[1..]);
      assert forall k | k in ks :: k == ks[0] || k in ks[1..];
    }
  }

  /** No pairs exactly when every name's list of values is empty (`Add` never leaves one empty). */
  lemma PairsEmpty(v: Values)
    ensures Pairs(v) == [] <==> forall k | k in v :: v[k] == []
  {
    PairsOfEmpty(v, SortedKeys(v.Keys));
  }
}
