/**
 * The district list in the map's sidebar (`createDistrictSidebar` in js/district-map.js): the
 * features' ids sorted with the comparator `parseInt(a) - parseInt(b)`, then one list item per id,
 * with the `active` class and the candidate badge on district 8 only.
 */
module DistrictSidebar {
  import opened JsText
  import opened DistrictFeatures
  import opened DistrictData
  import opened DistrictStyle

  /** Every feature of the collection carries district properties. */
  predicate AllDistrictFeatures(fc: FeatureCollection) {
    forall i :: 0 <= i < |fc.features| ==> fc.features[i].properties.DistrictProperties?
  }

  /** `geojson.features.map(f => f.properties.district)`. */
  function SidebarIds(fc: FeatureCollection): (ids: seq<string>)
    requires AllDistrictFeatures(fc)
    ensures |ids| == |fc.features|
    ensures forall i :: 0 <= i < |ids| ==> DistrictOf(fc.features[i]) == Some(ids[i])
  {
    seq(|fc.features|, i requires 0 <= i < |fc.features| && fc.features[i].properties.DistrictProperties? =>
      fc.features[i].properties.district)
  }

  /** Every id has a numeric value, so the comparator never yields NaN. */
  predicate AllParse(ids: seq<string>) {
    forall i :: 0 <= i < |ids| ==> ParseInt(ids[i]).Some?
  }

  /** The sort key `parseInt(id)`. Under `AllParse` the stand-in 0 for NaN is never used. */
  function NumericKey(id: string): int {
    match ParseInt(id)
    case Some(n) => n
    case None => 0
  }

  /** Ascending in `key`. */
  predicate SortedBy(ids: seq<string>, key: string -> int) {
    forall i, j :: 0 <= i < j < |ids| ==> key(ids[i]) <= key(ids[j])
  }

  /** The ids whose key is `v`, in their order in `ids`. */
  function WithKey(ids: seq<string>, key: string -> int, v: int): seq<string> {
    if ids == [] then []
    else (if key(ids[0]) == v then [ids[0]] else []) + WithKey(ids[1..], key, v)
  }

  /** Puts `x` before the first element whose key is not smaller, so it precedes its equals. */
  function Insert(x: string, t: seq<string>, key: string -> int): (r: seq<string>)
    ensures |r| == |t| + 1
    ensures multiset(r) == multiset(t) + multiset{x}
  {
    if t == [] || key(x) <= key(t[0]) then [x] + t
    else
      var rest := Insert(x, t[1..], key);
      assert t == [t[0]] + t[1..];
      [t[0]] + rest
  }

  /** A stable sort by `key`, written as an insertion sort. The result is a permutation of the input. */
  function SortBy(ids: seq<string>, key: string -> int): (r: seq<string>)
    ensures |r| == |ids|
    ensures multiset(r) == multiset(ids)
  {
    if ids == [] then []
    else
      assert ids == [ids[0]] + ids[1..];
      Insert(ids[0], SortBy(ids[1..], key), key)
  }

  lemma AllParsePermutation(a: seq<string>, b: seq<string>)
    requires AllParse(a) && multiset(a) == multiset(b)
    ensures AllParse(b)
  {
    forall i | 0 <= i < |b|
      ensures ParseInt(b[i]).Some?
    {
      assert b[i] in multiset(a);
    }
  }

  /**
   * `Array.prototype.sort` with the comparator `parseInt(a) - parseInt(b)`: a stable sort (required
   * of `sort` since ECMAScript 2019) by numeric value.
   */
  function SortByNumber(ids: seq<string>): (r: seq<string>)
    requires AllParse(ids)
    ensures |r| == |ids| && AllParse(r)
    ensures multiset(r) == multiset(ids)
  {
    var r := SortBy(ids, NumericKey);
    AllParsePermutation(ids, r);
    r
  }

  lemma MemberOfInsert(x: string, t: seq<string>, key: string -> int, y: string)
    requires y in Insert(x, t, key)
    ensures y == x || y in t
  {
    assert y in multiset(Insert(x, t, key));
  }

  lemma {:induction false} InsertSorted(x: string, t: seq<string>, key: string -> int)
    requires SortedBy(t, key)
    ensures SortedBy(Insert(x, t, key), key)
  {
    if t != [] && key(x) > key(t[0]) {
      var rest := Insert(x, t[1..], key);
      InsertSorted(x, t[1..], key);
      forall k | 0 <= k < |rest|
        ensures key(t[0]) <= key(rest[k])
      {
        MemberOfInsert(x, t[1..], key, rest[k]);
      }
    }
  }

  lemma {:induction false} SortBySorted(ids: seq<string>, key: string -> int)
    ensures SortedBy(SortBy(ids, key), key)
  {
    if ids != [] {
      SortBySorted(ids[1..], key);
      InsertSorted(ids[0], SortBy(ids[1..], key), key);
    }
  }

  lemma {:induction false} InsertWithKey(x: string, t: seq<string>, key: string -> int, v: int)
    ensures WithKey(Insert(x, t, key), key, v) == (if key(x) == v then [x] else []) + WithKey(t, key, v)
  {
    var r := Insert(x, t, key);
    var hx: seq<string> := if key(x) == v then [x] else [];
    if t == [] || key(x) <= key(t[0]) {
      assert r[0] == x && r[1..] == t;
      assert WithKey(r, key, v) == hx + WithKey(t, key, v);
    } else {
      var h0: seq<string> := if key(t[0]) == v then [t[0]] else [];
      var w := WithKey(t[1..], key, v);
      InsertWithKey(x, t[1..], key, v);
      assert r[0] == t[0] && r[1..] == Insert(x, t[1..], key);
      assert WithKey(r, key, v) == h0 + (hx + w);
      assert WithKey(t, key, v) == h0 + w;
      if h0 == [] {
        assert h0 + (hx + w) == hx + w && h0 + w == w;
      } else {
        assert hx == [];
        assert hx + w == w && hx + (h0 + w) == h0 + w;
      }
    }
  }

  lemma {:induction false} SortByStable(ids: seq<string>, key: string -> int, v: int)
    ensures WithKey(SortBy(ids, key), key, v) == WithKey(ids, key, v)
  {
    if ids != [] {
      SortByStable(ids[1..], key, v);
      InsertWithKey(ids[0], SortBy(ids[1..], key), key, v);
    }
  }

  lemma {:induction false} SortByOfSorted(ids: seq<string>, key: string -> int)
    requires SortedBy(ids, key)
    ensures SortBy(ids, key) == ids
  {
    if ids != [] {
      SortByOfSorted(ids[1..], key);
      assert ids == [ids[0]] + ids[1..];
    }
  }

  /** The sidebar order is ascending in `parseInt` value. */
  lemma SortSorted(ids: seq<string>)
    requires AllParse(ids)
    ensures SortedBy(SortByNumber(ids), NumericKey)
  {
    SortBySorted(ids, NumericKey);
  }

  /**
   * Stability: ids with the same numeric value ("8" and "08", say) keep their relative order, so
   * for every value the ids having it appear in the same order as in the input.
   */
  lemma SortStable(ids: seq<string>, v: int)
    requires AllParse(ids)
    ensures WithKey(SortByNumber(ids), NumericKey, v) == WithKey(ids, NumericKey, v)
  {
    SortByStable(ids, NumericKey, v);
  }

  /** An already ascending list is left as it is. */
  lemma SortOfSortedIsIdentity(ids: seq<string>)
    requires AllParse(ids) && SortedBy(ids, NumericKey)
    ensures SortByNumber(ids) == ids
  {
    SortByOfSorted(ids, NumericKey);
  }

  /**
   * A collection whose features carry the ids "1", "2", ... in order is listed in that order: the
   * ids ascend, so the sort leaves them in place.
   */
  lemma SidebarOfNumberedTable(fc: FeatureCollection)
    requires forall i :: 0 <= i < |fc.features| ==> DistrictOf(fc.features[i]) == Some(DecimalString(i + 1))
    ensures AllDistrictFeatures(fc) && AllParse(SidebarIds(fc))
    ensures forall i :: 0 <= i < |fc.features| ==> ParseInt(SidebarIds(fc)[i]) == Some(i + 1)
    ensures SortByNumber(SidebarIds(fc)) == SidebarIds(fc)
  {
    var ids := SidebarIds(fc);
    forall i | 0 <= i < |ids|
      ensures ParseInt(ids[i]) == Some(i + 1)
    {
      ParseIntOfDecimal(i + 1);
    }
    assert SortedBy(ids, NumericKey) by {
      forall i, j | 0 <= i < j < |ids|
        ensures NumericKey(ids[i]) <= NumericKey(ids[j])
      {
        assert ParseInt(ids[i]) == Some(i + 1) && ParseInt(ids[j]) == Some(j + 1);
      }
    }
    SortOfSortedIsIdentity(ids);
  }

  /** The sidebar lists the district table's ids in source order, "1" to "38". */
  lemma SidebarOfTexas()
    ensures AllDistrictFeatures(TexasDistricts())
    ensures SidebarIds(TexasDistricts()) == SourceOrderIds
  {
    TexasDistrictIdList();
    var ids := SidebarIds(TexasDistricts());
    assert |ids| == |SourceOrderIds|;
    forall i | 0 <= i < 38
      ensures ids[i] == SourceOrderIds[i]
    {
    }
  }

  lemma SidebarOfTexasSorted()
    ensures AllParse(SourceOrderIds)
    ensures SortByNumber(SourceOrderIds) == SourceOrderIds
  {
    TexasDistrictIdList();
    TexasDistrictIds();
    SidebarOfNumberedTable(TexasDistricts());
    SidebarOfTexas();
  }

  /** One entry of the list: its id, whether it has the `active` class, whether it shows the badge. */
  datatype SidebarItem = SidebarItem(district: string, active: bool, badge: bool)

  /** The list item for one id. */
  function ItemFor(district: string): (item: SidebarItem)
    ensures item.district == district
    ensures item.active <==> district == "8"
    ensures item.badge <==> district == "8"
  {
    SidebarItem(district, IsDistrict8(district), IsDistrict8(district))
  }

  /** The ids shown by a list of items, in order. */
  function Districts(items: seq<SidebarItem>): (ds: seq<string>)
    ensures |ds| == |items|
    ensures forall i :: 0 <= i < |items| ==> ds[i] == items[i].district
  {
    if items == [] then [] else Districts(items[..|items| - 1]) + [items[|items| - 1].district]
  }

  /**
   * The `districts.forEach` loop: one item per id, in the order given, each marked active and
   * badged exactly when its id is "8".
   */
  method AppendItems(districts: seq<string>) returns (items: seq<SidebarItem>)
    ensures Districts(items) == districts
    ensures forall i :: 0 <= i < |items| ==> (items[i].active <==> items[i].district == "8")
    ensures forall i :: 0 <= i < |items| ==> (items[i].badge <==> items[i].district == "8")
  {
    items := [];
    var k := 0;
    while k < |districts|
      invariant 0 <= k <= |districts|
      invariant |items| == k
      invariant forall i :: 0 <= i < k ==> items[i] == ItemFor(districts[i])
    {
      items := items + [ItemFor(districts[k])];
      k := k + 1;
    }
    var ds := Districts(items);
    forall i | 0 <= i < |ds|
      ensures ds[i] == districts[i]
    {
      assert items[i] == ItemFor(districts[i]);
    }
  }

  /**
   * The `onAdd` callback: sorts the ids and appends one item per id, in sorted order. The items are
   * the sorted ids, each marked active and badged exactly when it is "8".
   */
  method BuildSidebar(fc: FeatureCollection) returns (items: seq<SidebarItem>)
    requires AllDistrictFeatures(fc) && AllParse(SidebarIds(fc))
    ensures Districts(items) == SortByNumber(SidebarIds(fc))
    ensures multiset(Districts(items)) == multiset(SidebarIds(fc))
    ensures forall i :: 0 <= i < |items| ==> (items[i].active <==> items[i].district == "8")
    ensures forall i :: 0 <= i < |items| ==> (items[i].badge <==> items[i].district == "8")
  {
    var districts := SortByNumber(SidebarIds(fc));
    items := AppendItems(districts);
  }

  /** In the sidebar of the district table exactly one item, the eighth, is active and badged. */
  lemma TexasSidebarOneActive()
    ensures |SourceOrderIds| == 38
    ensures forall i :: 0 <= i < 38 ==> (ItemFor(SourceOrderIds[i]).active <==> i == 7)
    ensures forall i :: 0 <= i < 38 ==> (ItemFor(SourceOrderIds[i]).badge <==> i == 7)
  {
    TexasDistrictIdList();
    TexasDistrictIdsDistinct();
  }
}
