/**
 * src/controllers/general.controller.ts: the status endpoint and the demonstration
 * listing that pages through 50 synthetic items.
 */
module GeneralController {
  import opened Wrappers
  import opened JsStrings
  import opened JsParseInt
  import opened JsArrays
  import SanitizeInput

  // ----- getStatus -----

  datatype StatusPayload = StatusPayload(message: string, environment: string)

  /** `getStatus`, given `process.env.NODE_ENV` (None when unset). */
  function GetStatus(nodeEnv: Option<string>): (r: StatusPayload)
    ensures r.environment == "Production" <==> nodeEnv == Some("production")
    ensures r.environment == "Production" || r.environment == "Development"
    ensures r.message == "API v1 funcionando correctamente"
  {
    StatusPayload("API v1 funcionando correctamente",
                  if nodeEnv == Some("production") then "Production" else "Development")
  }

  // ----- getItems -----

  datatype Item = Item(id: int, name: string)

  /** `Array.from({ length: 50 }, (_, i) => ({ id: i + 1, name: `Item ${i + 1}` }))`. */
  function AllItems(): (r: seq<Item>)
    ensures |r| == 50
    ensures forall i :: 0 <= i < |r| ==> r[i].id == i + 1 && r[i].name == "Item " + NatToString(r[i].id)
  {
    seq(50, i requires 0 <= i < 50 => Item(i + 1, "Item " + NatToString(i + 1)))
  }

  /** `parseInt(req.query.x as string)`: an absent parameter is `parseInt(undefined)`, which is NaN. */
  function ParseQuery(param: Option<string>): (r: Option<int>)
    ensures param == None ==> r == None
    ensures param == Some("") ==> r == None
  {
    match param
    case None => None
    case Some(s) => ParseInt(s)
  }

  /** `parsed || fallback`: NaN and 0 (also -0) are falsy, so both give the fallback. */
  function OrDefault(parsed: Option<int>, fallback: int): (r: int)
    ensures parsed.Some? && parsed.value != 0 ==> r == parsed.value
    ensures parsed == None || parsed == Some(0) ==> r == fallback
    ensures fallback != 0 ==> r != 0
  {
    match parsed
    case Some(n) => if n != 0 then n else fallback
    case None => fallback
  }

  const InvalidParametersMessage: string := "Los parámetros 'page' y 'pageSize' deben ser números positivos."

  /** The two answers of getItems: 400 with an error code, or 200 with one page. */
  datatype ItemsResponse =
    | InvalidParameters(status: int, code: string, message: string)
    | Page(status: int, items: seq<Item>, totalItems: int, page: int, pageSize: int)

  /** `getItems`, given the raw `page` and `pageSize` query parameters. */
  function GetItems(pageParam: Option<string>, pageSizeParam: Option<string>): (r: ItemsResponse)
    ensures r.InvalidParameters? ==> r.status == 400 && r.code == "INVALID_PARAMETERS" && r.message == InvalidParametersMessage
    ensures r.Page? ==> r.status == 200 && r.page >= 1 && r.pageSize >= 1
  {
    Paginate(OrDefault(ParseQuery(pageParam), 1), OrDefault(ParseQuery(pageSizeParam), 10))
  }

  /** The part of getItems after the parameters are read: the range check and the slice. */
  function Paginate(page: int, pageSize: int): (r: ItemsResponse)
    ensures r.InvalidParameters? <==> page < 1 || pageSize < 1
    ensures r.InvalidParameters? ==> r.status == 400 && r.code == "INVALID_PARAMETERS" && r.message == InvalidParametersMessage
    ensures r.Page? ==> r.status == 200 && r.page == page && r.pageSize == pageSize
  {
    if page < 1 || pageSize < 1 then
      InvalidParameters(400, "INVALID_PARAMETERS", InvalidParametersMessage)
    else
      var allItems := AllItems();
      var startIndex := (page - 1) * pageSize;
      var endIndex := startIndex + pageSize;
      Page(200, Slice(allItems, startIndex, endIndex), |allItems|, page, pageSize)
  }

  predicate ParsedNegative(parsed: Option<int>) {
    parsed.Some? && parsed.value < 0
  }

  /** The request is refused exactly when a parameter parses to a negative number. */
  lemma RejectedIffNegative(pageParam: Option<string>, pageSizeParam: Option<string>)
    ensures GetItems(pageParam, pageSizeParam).InvalidParameters?
        <==> ParsedNegative(ParseQuery(pageParam)) || ParsedNegative(ParseQuery(pageSizeParam))
  {
  }

  /** After defaulting, the page and page size are the parsed values, or 1 and 10 when those are NaN or 0. */
  lemma Defaults(pageParam: Option<string>, pageSizeParam: Option<string>)
    requires GetItems(pageParam, pageSizeParam).Page?
    ensures var r := GetItems(pageParam, pageSizeParam);
      && (ParseQuery(pageParam) in {None, Some(0)} ==> r.page == 1)
      && (ParseQuery(pageSizeParam) in {None, Some(0)} ==> r.pageSize == 10)
      && (ParseQuery(pageParam) !in {None, Some(0)} ==> Some(r.page) == ParseQuery(pageParam))
      && (ParseQuery(pageSizeParam) !in {None, Some(0)} ==> Some(r.pageSize) == ParseQuery(pageSizeParam))
  {
  }

  /** `page=0` and a missing or non-numeric page all behave like `page=1`. */
  lemma PageZeroIsFirstPage(pageParam: Option<string>, firstPage: Option<string>, pageSizeParam: Option<string>)
    requires ParseQuery(pageParam) == None || ParseQuery(pageParam) == Some(0)
    requires ParseQuery(firstPage) == Some(1)
    ensures GetItems(pageParam, pageSizeParam) == GetItems(firstPage, pageSizeParam)
  {
    var pageSize := OrDefault(ParseQuery(pageSizeParam), 10);
    assert GetItems(pageParam, pageSizeParam) == Paginate(1, pageSize);
    assert GetItems(firstPage, pageSizeParam) == Paginate(1, pageSize);
  }

  /** Query strings written from numbers (`String(n)`) are read back as those numbers. */
  lemma NumericQuery(page: int, pageSize: int)
    ensures GetItems(Some(IntToString(page)), Some(IntToString(pageSize)))
         == Paginate(OrDefault(Some(page), 1), OrDefault(Some(pageSize), 10))
  {
    ParseIntRoundTrip(page);
    ParseIntRoundTrip(pageSize);
  }

  /**
   * What a 200 answer holds: the items with ids `(page-1)*pageSize+1` onwards, as many as
   * fit in `pageSize` and in the 50 items, each named after its id; `totalItems` is 50.
   */
  predicate HoldsPage(r: ItemsResponse)
    requires r.Page?
  {
    var start := (r.page - 1) * r.pageSize;
    && start >= 0
    && r.totalItems == 50
    && |r.items| == Min(r.pageSize, Max(0, 50 - start))
    && forall k :: 0 <= k < |r.items| ==>
         r.items[k].id == start + k + 1 && r.items[k].name == "Item " + NatToString(start + k + 1)
  }

  /** Every 200 answer of getItems holds its page of the 50 items. */
  lemma PageContents(pageParam: Option<string>, pageSizeParam: Option<string>)
    requires GetItems(pageParam, pageSizeParam).Page?
    ensures HoldsPage(GetItems(pageParam, pageSizeParam))
  {
    var page := OrDefault(ParseQuery(pageParam), 1);
    var pageSize := OrDefault(ParseQuery(pageSizeParam), 10);
    assert GetItems(pageParam, pageSizeParam) == Paginate(page, pageSize);
    PaginateContents(page, pageSize);
  }

  lemma PaginateContents(page: int, pageSize: int)
    requires page >= 1 && pageSize >= 1
    ensures Paginate(page, pageSize).Page? && HoldsPage(Paginate(page, pageSize))
  {
    var all := AllItems();
    var start := (page - 1) * pageSize;
    assert start >= 0 by {
      ProductOfNaturals(page - 1, pageSize);
    }
    var items := Slice(all, start, start + pageSize);
    assert Paginate(page, pageSize) == Page(200, items, 50, page, pageSize);
    assert |items| == Min(pageSize, Max(0, 50 - start));
    forall k | 0 <= k < |items|
      ensures items[k].id == start + k + 1 && items[k].name == "Item " + NatToString(start + k + 1)
    {
      assert items[k] == all[start + k];
    }
  }

  /** Non-linear arithmetic the solver does not find alone: the start index is never negative. */
  lemma ProductOfNaturals(a: int, b: int)
    requires a >= 0 && b >= 0
    ensures a * b >= 0
  {
  }

  /** A page that starts past the last item is an empty 200 answer, not an error. */
  lemma PastTheEnd(pageParam: Option<string>, pageSizeParam: Option<string>)
    requires GetItems(pageParam, pageSizeParam).Page?
    requires var r := GetItems(pageParam, pageSizeParam); (r.page - 1) * r.pageSize >= 50
    ensures GetItems(pageParam, pageSizeParam).items == []
    ensures GetItems(pageParam, pageSizeParam).status == 200
  {
    PageContents(pageParam, pageSizeParam);
  }

  /** Page 2 of size 10 holds items 11 to 20 of 50. */
  lemma SecondPageOfTen()
    ensures var r := GetItems(Some(IntToString(2)), Some(IntToString(10)));
      && r.Page? && r.page == 2 && r.pageSize == 10 && r.totalItems == 50 && |r.items| == 10
      && forall k :: 0 <= k < 10 ==> r.items[k].id == 11 + k
  {
    NumericQuery(2, 10);
    PaginateContents(2, 10);
  }

  /** Whether or not the sanitiser's changes to the query are visible, getItems answers the same. */
  lemma GetItemsIgnoresSanitizer(page: string, pageSize: string)
    ensures GetItems(Some(SanitizeInput.SanitizeString(page)), Some(SanitizeInput.SanitizeString(pageSize)))
         == GetItems(Some(page), Some(pageSize))
  {
    SanitizeInput.SanitizeStringKeepsParseInt(page);
    SanitizeInput.SanitizeStringKeepsParseInt(pageSize);
    assert ParseQuery(Some(SanitizeInput.SanitizeString(page))) == ParseQuery(Some(page));
    assert ParseQuery(Some(SanitizeInput.SanitizeString(pageSize))) == ParseQuery(Some(pageSize));
  }
}
