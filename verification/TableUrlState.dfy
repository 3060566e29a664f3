/**
 Table state kept in the URL: column filters and the page are written into the search record and read back from it.
 */
module TableUrlState {
  import opened Common

  /** A value of the search record or of a filter. */
  datatype Value = Undefined | Null | Num(n: int) | Str(s: string) | Arr(items: seq<Value>) | Other(tag: nat)

  type Search = map<string, Value>

  datatype Kind = StringFilter | ArrayFilter

  datatype Column = Column(
    columnId: string,
    searchKey: string,
    kind: Kind,
    serialize: Value -> Value,
    deserialize: Value -> Value)

  datatype Filter = Filter(id: string, value: Value)

  function Get(search: Search, key: string): Value {
    if key in search then search[key] else Undefined
  }

  predicate Blank(s: string) {
    forall i :: 0 <= i < |s| ==> Space(s[i])
  }

  /** A value that a column of this kind keeps as a filter. */
  predicate Meaningful(kind: Kind, v: Value) {
    match kind
    case StringFilter => v.Str? && !Blank(v.s)
    case ArrayFilter => v.Arr? && v.items != []
  }

  /** What the search record says about one column. */
  function DecodeColumn(c: Column, search: Search): seq<Filter> {
    var value := c.deserialize(Get(search, c.searchKey));
    if Meaningful(c.kind, value) then [Filter(c.columnId, value)] else []
  }

  function Decode(columns: seq<Column>, search: Search): seq<Filter> {
    if columns == [] then []
    else Decode(columns[..|columns| - 1], search) + DecodeColumn(columns[|columns| - 1], search)
  }

  method InitialColumnFilters(columns: seq<Column>, search: Search) returns (collected: seq<Filter>)
    ensures collected == Decode(columns, search) && exists at :: ReadAt(columns, search, collected, at)
  {
    collected := [];
    for i := 0 to |columns|
      invariant collected == Decode(columns[..i], search)
    {
      var c := columns[i];
      assert columns[..i + 1][..i] == columns[..i];
      var value := c.deserialize(Get(search, c.searchKey));
      if c.kind.StringFilter? {
        if value.Str? && !Blank(value.s) {
          collected := collected + [Filter(c.columnId, value)];
        }
      } else if value.Arr? && |value.items| > 0 {
        collected := collected + [Filter(c.columnId, value)];
      }
    }
    assert columns[..|columns|] == columns;
    ghost var at := DecodeReads(columns, search);
  }

  /** The value of the first filter for a column. */
  function Found(filters: seq<Filter>, id: string): Value {
    if filters == [] then Undefined
    else if filters[0].id == id then filters[0].value
    else Found(filters[1..], id)
  }

  function EncodeColumn(c: Column, filters: seq<Filter>): Value {
    var value := Found(filters, c.columnId);
    if Meaningful(c.kind, value) then c.serialize(value) else Undefined
  }

  function Patch(columns: seq<Column>, filters: seq<Filter>): Search {
    if columns == [] then map[]
    else
      var c := columns[|columns| - 1];
      Patch(columns[..|columns| - 1], filters)[c.searchKey := EncodeColumn(c, filters)]
  }

  /** The search record after the filters changed: the page is forgotten, the columns' keys are rewritten. */
  function Encode(columns: seq<Column>, pageKey: string, search: Search, filters: seq<Filter>): Search {
    search[pageKey := Undefined] + Patch(columns, filters)
  }

  method OnColumnFiltersChange(columns: seq<Column>, pageKey: string, search: Search, next: seq<Filter>)
    returns (updated: Search)
    ensures updated == Encode(columns, pageKey, search, next)
  {
    var patch: Search := map[];
    for i := 0 to |columns|
      invariant patch == Patch(columns[..i], next)
    {
      var c := columns[i];
      assert columns[..i + 1][..i] == columns[..i];
      var found := Found(next, c.columnId);
      if c.kind.StringFilter? {
        var value := if found.Str? then found.s else "";
        patch := patch[c.searchKey := if !Blank(value) then c.serialize(Str(value)) else Undefined];
      } else {
        var items := if found.Arr? then found.items else [];
        patch := patch[c.searchKey := if |items| > 0 then c.serialize(Arr(items)) else Undefined];
      }
    }
    assert columns[..|columns|] == columns;
    updated := search[pageKey := Undefined] + patch;
  }

  /** The filters that the columns keep, in the order of the columns. */
  function Normalised(columns: seq<Column>, filters: seq<Filter>): seq<Filter> {
    if columns == [] then []
    else
      var c := columns[|columns| - 1];
      var value := Found(filters, c.columnId);
      Normalised(columns[..|columns| - 1], filters)
      + (if Meaningful(c.kind, value) then [Filter(c.columnId, value)] else [])
  }

  ghost predicate DistinctKeys(columns: seq<Column>) {
    forall i, j :: 0 <= i < j < |columns| ==> columns[i].searchKey != columns[j].searchKey
  }

  /** Reading undoes writing for every value the column keeps, and an absent key reads as no filter. */
  ghost predicate Inverse(c: Column) {
    && (forall v :: Meaningful(c.kind, v) ==> c.deserialize(c.serialize(v)) == v)
    && !Meaningful(c.kind, c.deserialize(Undefined))
  }

  lemma {:induction false} PatchKeys(columns: seq<Column>, filters: seq<Filter>, key: string)
    ensures key in Patch(columns, filters) <==> exists i :: 0 <= i < |columns| && columns[i].searchKey == key
  {
    if columns != [] {
      var init := columns[..|columns| - 1];
      PatchKeys(init, filters, key);
      if i :| 0 <= i < |columns| && columns[i].searchKey == key {
        if i < |init| {
          assert init[i].searchKey == key;
        }
      }
    }
  }

  lemma {:induction false} PatchAt(columns: seq<Column>, filters: seq<Filter>, i: nat)
    requires DistinctKeys(columns) && i < |columns|
    ensures columns[i].searchKey in Patch(columns, filters)
    ensures Patch(columns, filters)[columns[i].searchKey] == EncodeColumn(columns[i], filters)
  {
    if i < |columns| - 1 {
      PatchAt(columns[..|columns| - 1], filters, i);
    }
  }

  lemma {:induction false} DecodeEncoded(columns: seq<Column>, n: nat, search: Search, filters: seq<Filter>)
    requires n <= |columns| && forall i :: 0 <= i < |columns| ==> Inverse(columns[i])
    requires forall i :: 0 <= i < |columns| ==> Get(search, columns[i].searchKey) == EncodeColumn(columns[i], filters)
    ensures Decode(columns[..n], search) == Normalised(columns[..n], filters)
  {
    if n > 0 {
      DecodeEncoded(columns, n - 1, search, filters);
      assert columns[..n][..n - 1] == columns[..n - 1];
      assert Inverse(columns[n - 1]);
    }
  }

  /**
   Writing filters into the URL and reading them back gives the filters that the columns keep, in column order, and
   touches no key but the page's and the columns'.
   */
  lemma FiltersRoundTrip(columns: seq<Column>, pageKey: string, search: Search, filters: seq<Filter>)
    requires DistinctKeys(columns) && forall i :: 0 <= i < |columns| ==> Inverse(columns[i])
    ensures Decode(columns, Encode(columns, pageKey, search, filters)) == Normalised(columns, filters)
    ensures forall key :: key != pageKey && (forall i :: 0 <= i < |columns| ==> columns[i].searchKey != key) ==>
      Get(Encode(columns, pageKey, search, filters), key) == Get(search, key)
  {
    var updated := Encode(columns, pageKey, search, filters);
    forall i | 0 <= i < |columns|
      ensures Get(updated, columns[i].searchKey) == EncodeColumn(columns[i], filters)
    {
      PatchAt(columns, filters, i);
    }
    DecodeEncoded(columns, |columns|, updated, filters);
    assert columns[..|columns|] == columns;
    forall key | key != pageKey && (forall i :: 0 <= i < |columns| ==> columns[i].searchKey != key)
      ensures Get(updated, key) == Get(search, key)
    {
      PatchKeys(columns, filters, key);
    }
  }

  /** Every entry kept for a column carries the value that was found for it. */
  lemma {:induction false} NormalisedEntries(columns: seq<Column>, filters: seq<Filter>)
    ensures forall f :: f in Normalised(columns, filters) ==> f.value == Found(filters, f.id) && f.value != Undefined
    ensures forall i :: 0 <= i < |columns| && Meaningful(columns[i].kind, Found(filters, columns[i].columnId)) ==>
      Filter(columns[i].columnId, Found(filters, columns[i].columnId)) in Normalised(columns, filters)
  {
    if columns != [] {
      NormalisedEntries(columns[..|columns| - 1], filters);
    }
  }

  lemma {:induction false} FoundIn(filters: seq<Filter>, id: string)
    requires forall f :: f in filters ==> f.value != Undefined
    ensures if exists f :: f in filters && f.id == id then Filter(id, Found(filters, id)) in filters
            else Found(filters, id) == Undefined
  {
    if filters != [] {
      assert filters == [filters[0]] + filters[1..];
      FoundIn(filters[1..], id);
    }
  }

  lemma FoundNormalised(columns: seq<Column>, filters: seq<Filter>, i: nat)
    requires i < |columns|
    ensures EncodeColumn(columns[i], Normalised(columns, filters)) == EncodeColumn(columns[i], filters)
  {
    var kept, id := Normalised(columns, filters), columns[i].columnId;
    NormalisedEntries(columns, filters);
    FoundIn(kept, id);
    if Meaningful(columns[i].kind, Found(filters, id)) {
      assert Filter(id, Found(filters, id)) in kept;
    }
  }

  lemma {:induction false} PatchNormalised(columns: seq<Column>, n: nat, filters: seq<Filter>)
    requires n <= |columns|
    ensures Patch(columns[..n], Normalised(columns, filters)) == Patch(columns[..n], filters)
  {
    if n > 0 {
      PatchNormalised(columns, n - 1, filters);
      assert columns[..n][..n - 1] == columns[..n - 1];
      FoundNormalised(columns, filters, n - 1);
    }
  }

  /** Reading the URL and writing back what was read leaves the URL as it is. */
  lemma ReencodeFixpoint(columns: seq<Column>, pageKey: string, search: Search, filters: seq<Filter>)
    requires DistinctKeys(columns) && forall i :: 0 <= i < |columns| ==> Inverse(columns[i])
    ensures var updated := Encode(columns, pageKey, search, filters);
            Encode(columns, pageKey, updated, Decode(columns, updated)) == updated
  {
    FiltersRoundTrip(columns, pageKey, search, filters);
    PatchNormalised(columns, |columns|, filters);
    assert columns[..|columns|] == columns;
    hide Patch, Normalised, Decode;
    OverrideAgain(search, pageKey, Patch(columns, filters));
  }

  lemma OverrideAgain(search: Search, key: string, patch: Search)
    ensures (search[key := Undefined] + patch)[key := Undefined] + patch == search[key := Undefined] + patch
  {
  }

  // What stands in the URL, key by key.

  /** `v` is the value of the first filter for the column. */
  ghost predicate FirstFor(filters: seq<Filter>, id: string, v: Value) {
    exists k :: 0 <= k < |filters| && filters[k] == Filter(id, v) && forall j :: 0 <= j < k ==> filters[j].id != id
  }

  lemma {:induction false} FoundIff(filters: seq<Filter>, id: string)
    ensures (forall k :: 0 <= k < |filters| ==> filters[k].id != id) ==> Found(filters, id) == Undefined
    ensures (exists k :: 0 <= k < |filters| && filters[k].id == id) ==> FirstFor(filters, id, Found(filters, id))
  {
    if filters != [] && filters[0].id != id {
      var rest := filters[1..];
      FoundIff(rest, id);
      if exists k :: 0 <= k < |filters| && filters[k].id == id {
        var k :| 0 <= k < |filters| && filters[k].id == id;
        assert rest[k - 1].id == id;
        var j :| 0 <= j < |rest| && rest[j] == Filter(id, Found(rest, id))
          && forall m :: 0 <= m < j ==> rest[m].id != id;
        assert filters[j + 1] == Filter(id, Found(filters, id));
      }
    }
  }

  lemma FirstForOnce(filters: seq<Filter>, id: string, v: Value, w: Value)
    requires FirstFor(filters, id, v) && FirstFor(filters, id, w)
    ensures v == w
  {
  }

  lemma FoundIs(filters: seq<Filter>, id: string, kind: Kind, v: Value)
    requires Meaningful(kind, v)
    ensures Found(filters, id) == v <==> FirstFor(filters, id, v)
  {
    FoundIff(filters, id);
    if FirstFor(filters, id, v) {
      FirstForOnce(filters, id, v, Found(filters, id));
    }
  }

  /**
   After the filters changed, the key of every column holds the serialised value of its first filter, if that is a text
   that is not blank or a list that is not empty, and nothing otherwise; the page's key holds nothing.
   */
  lemma FiltersInUrl(columns: seq<Column>, pageKey: string, search: Search, filters: seq<Filter>, i: nat, v: Value)
    requires DistinctKeys(columns) && i < |columns|
    ensures var c, updated := columns[i], Encode(columns, pageKey, search, filters);
            && (Meaningful(c.kind, v) && FirstFor(filters, c.columnId, v) ==>
                  Get(updated, c.searchKey) == c.serialize(v))
            && ((forall w :: Meaningful(c.kind, w) ==> !FirstFor(filters, c.columnId, w)) ==>
                  Get(updated, c.searchKey) == Undefined)
    ensures (forall j :: 0 <= j < |columns| ==> columns[j].searchKey != pageKey) ==>
      Get(Encode(columns, pageKey, search, filters), pageKey) == Undefined
  {
    var c := columns[i];
    PatchAt(columns, filters, i);
    PatchKeys(columns, filters, pageKey);
    var found := Found(filters, c.columnId);
    if Meaningful(c.kind, v) {
      FoundIs(filters, c.columnId, c.kind, v);
    }
    if Meaningful(c.kind, found) {
      FoundIs(filters, c.columnId, c.kind, found);
    }
  }

  /** What the URL says of a column. */
  function ValueOf(c: Column, search: Search): Value {
    c.deserialize(Get(search, c.searchKey))
  }

  /** The filters read, in column order, from the columns number `at`: all those whose key holds something to keep. */
  ghost predicate ReadAt(columns: seq<Column>, search: Search, filters: seq<Filter>, at: seq<nat>) {
    && |at| == |filters|
    && (forall j, k :: 0 <= j < k < |at| ==> at[j] < at[k])
    && (forall j :: 0 <= j < |at| ==>
          at[j] < |columns| && filters[j] == Filter(columns[at[j]].columnId, ValueOf(columns[at[j]], search)))
    && (forall i: nat :: i < |columns| ==> (i in at <==> Meaningful(columns[i].kind, ValueOf(columns[i], search))))
  }

  lemma ReadOneMore(columns: seq<Column>, c: Column, search: Search, filters: seq<Filter>, at: seq<nat>)
    requires ReadAt(columns, search, filters, at)
    ensures if Meaningful(c.kind, ValueOf(c, search)) then
              ReadAt(columns + [c], search, filters + [Filter(c.columnId, ValueOf(c, search))], at + [|columns|])
            else ReadAt(columns + [c], search, filters, at)
  {
    hide Meaningful, ValueOf;
    var all, n := columns + [c], |columns|;
    assert forall i :: 0 <= i < n ==> all[i] == columns[i];
    assert all[n] == c && n !in at;
    forall i: nat
      ensures i in at + [n] <==> i in at || i == n
    {
    }
  }

  lemma DecodeStep(columns: seq<Column>, search: Search)
    requires columns != []
    ensures var init, c := columns[..|columns| - 1], columns[|columns| - 1];
            columns == init + [c] && Decode(columns, search) == Decode(init, search) + DecodeColumn(c, search)
  {
  }

  lemma {:induction false} DecodeReads(columns: seq<Column>, search: Search) returns (at: seq<nat>)
    ensures ReadAt(columns, search, Decode(columns, search), at)
  {
    if columns == [] {
      at := [];
    } else {
      hide ReadAt, Meaningful, Decode, Get;
      var init, c := columns[..|columns| - 1], columns[|columns| - 1];
      at := DecodeReads(init, search);
      DecodeStep(columns, search);
      ReadOneMore(init, c, search, Decode(init, search), at);
      assert Decode(init, search) + [] == Decode(init, search);
      if Meaningful(c.kind, ValueOf(c, search)) {
        at := at + [|init|];
      }
    }
  }

  // Pagination.

  datatype Paging = Paging(pageKey: string, pageSizeKey: string, defaultPage: int, defaultPageSize: int)

  datatype Page = Page(pageIndex: int, pageSize: int)

  function NumberOr(v: Value, default: int): int {
    if v.Num? then v.n else default
  }

  function DecodePage(p: Paging, search: Search): Page {
    var page := NumberOr(Get(search, p.pageKey), p.defaultPage);
    Page(if page - 1 > 0 then page - 1 else 0, NumberOr(Get(search, p.pageSizeKey), p.defaultPageSize))
  }

  function EncodePage(p: Paging, search: Search, page: Page): Search {
    search[p.pageKey := if page.pageIndex + 1 <= p.defaultPage then Undefined else Num(page.pageIndex + 1)]
          [p.pageSizeKey := if page.pageSize == p.defaultPageSize then Undefined else Num(page.pageSize)]
  }

  /**
   A page survives the round trip through the URL exactly when it does not come before the default page, which is left
   out of the URL; the page size always survives.
   */
  lemma PageRoundTrip(p: Paging, search: Search, page: Page)
    requires p.pageKey != p.pageSizeKey && page.pageIndex >= 0
    ensures DecodePage(p, EncodePage(p, search, page)) == page <==> page.pageIndex + 1 >= p.defaultPage
    ensures DecodePage(p, EncodePage(p, search, page)).pageSize == page.pageSize
  {
    var updated := EncodePage(p, search, page);
    assert Get(updated, p.pageSizeKey) == if page.pageSize == p.defaultPageSize then Undefined else Num(page.pageSize);
  }

  /**
   The page in the URL: counted from one, and left out up to the default; the size is left out if it is the default.
   */
  lemma PageInUrl(p: Paging, search: Search, page: Page)
    requires p.pageKey != p.pageSizeKey
    ensures var updated := EncodePage(p, search, page);
            && Get(updated, p.pageKey)
               == (if page.pageIndex + 1 > p.defaultPage then Num(page.pageIndex + 1) else Undefined)
            && Get(updated, p.pageSizeKey)
               == (if page.pageSize != p.defaultPageSize then Num(page.pageSize) else Undefined)
            && (forall key :: key != p.pageKey && key != p.pageSizeKey ==> Get(updated, key) == Get(search, key))
  {
  }

  /** The page read from the URL: one less than the number there, but not below zero. */
  lemma PageFromUrl(p: Paging, search: Search, n: int, size: int)
    ensures Get(search, p.pageKey) == Num(n) && n >= 1 ==> DecodePage(p, search).pageIndex == n - 1
    ensures Get(search, p.pageKey) == Num(n) && n < 1 ==> DecodePage(p, search).pageIndex == 0
    ensures !Get(search, p.pageKey).Num? && p.defaultPage >= 1 ==> DecodePage(p, search).pageIndex == p.defaultPage - 1
    ensures Get(search, p.pageSizeKey) == Num(size) ==> DecodePage(p, search).pageSize == size
    ensures !Get(search, p.pageSizeKey).Num? ==> DecodePage(p, search).pageSize == p.defaultPageSize
  {
  }

  /** Where `ensurePageInRange` navigates to, if it does. */
  function EnsurePageInRange(p: Paging, search: Search, pageCount: int, last: bool): Option<Search> {
    if pageCount > 0 && NumberOr(Get(search, p.pageKey), p.defaultPage) > pageCount
    then Some(search[p.pageKey := if last then Num(pageCount) else Undefined])
    else None
  }

  function Ensured(p: Paging, search: Search, pageCount: int, last: bool, times: nat): Search {
    if times == 0 then search
    else
      var before := Ensured(p, search, pageCount, last, times - 1);
      var target := EnsurePageInRange(p, before, pageCount, last);
      if target.Some? then target.value else before
  }

  /**
   A navigation brings the page into range for good if it goes to the last page or the default page is in range;
   otherwise every later call navigates again, to where it already is. With default page one, one navigation is enough.
   */
  lemma {:induction false} EnsureStabilises(p: Paging, search: Search, pageCount: int, last: bool, times: nat)
    requires times > 0 && EnsurePageInRange(p, search, pageCount, last).Some?
    ensures Ensured(p, search, pageCount, last, times) == EnsurePageInRange(p, search, pageCount, last).value
    ensures EnsurePageInRange(p, Ensured(p, search, pageCount, last, times), pageCount, last).None?
            <==> last || p.defaultPage <= pageCount
    ensures p.defaultPage == 1 ==>
      EnsurePageInRange(p, Ensured(p, search, pageCount, last, times), pageCount, last).None?
  {
    if times > 1 {
      EnsureStabilises(p, search, pageCount, last, times - 1);
    }
  }

  /** When it navigates, and where to: out of range to the last page, or to no page at all; all other keys stay. */
  lemma EnsureTarget(p: Paging, search: Search, pageCount: int, last: bool)
    ensures var page := if Get(search, p.pageKey).Num? then Get(search, p.pageKey).n else p.defaultPage;
            var target := EnsurePageInRange(p, search, pageCount, last);
            && (target.Some? <==> 0 < pageCount < page)
            && (target.Some? ==>
                  && Get(target.value, p.pageKey) == (if last then Num(pageCount) else Undefined)
                  && forall key :: key != p.pageKey ==> Get(target.value, key) == Get(search, key))
  {
  }
}
