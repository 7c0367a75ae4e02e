/**
 * PageService.getTopPages over an abstract store. For a (date, language)
 * slot the store holds the count cell of the COUNT(*) query, as the driver
 * returns it (a string, or nothing), and the rows of the ranking view in
 * ascending rank. The outcome records the queries issued, in order.
 */
module PageService {
  import opened Wrappers
  import opened Text
  import opened Pagination

  // ---------------------------------------------------------------------
  // parseInt(x, 10) || 0 on the count cell.

  /** parseInt(s, 10): leading white space, an optional sign, then the
      longest run of decimal digits; None (NaN) when there are no digits. */
  function ParseInt(s: string): Option<int>
  {
    var t := SkipSpaces(s);
    var negative := t != [] && t[0] == '-';
    var u := if t != [] && (t[0] == '-' || t[0] == '+') then t[1..] else t;
    var n := DigitRun(u);
    if n == 0 then None
    else Some(if negative then -Value(u[..n]) else Value(u[..n]))
  }

  /** parseInt(totalResult[0]?.total, 10) || 0: a missing cell reads as the
      string "undefined", which has no digits; NaN and 0 become 0. */
  function CountOf(cell: Option<string>): int
  {
    var parsed := ParseInt(if cell.Some? then cell.value else "undefined");
    if parsed.Some? then parsed.value else 0
  }

  /** parseInt reads back the decimal digits of a count, whatever text
      without a leading digit follows them. */
  lemma ParseDecimal(n: nat, rest: string)
    requires rest == [] || !IsDigit(rest[0])
    ensures ParseInt(Decimal(n) + rest) == Some(n)
  {
    ParseDigits(Decimal(n), rest);
    ValueOfDecimal(n);
  }

  /** parseInt reads a run of digits followed by text without a leading
      digit as the run's value. */
  lemma ParseDigits(s: string, rest: string)
    requires s != [] && forall i :: 0 <= i < |s| ==> IsDigit(s[i])
    requires rest == [] || !IsDigit(rest[0])
    ensures ParseInt(s + rest) == Some(Value(s))
  {
    var t := s + rest;
    assert t[0] == s[0] && IsDigit(s[0]);
    DigitRunOfDigits(s, rest);
    assert t[..|s|] == s;
    ParseRun(t, |s|);
  }

  /** Text that starts with a run of n > 0 digits is read as the run. */
  lemma ParseRun(t: string, n: nat)
    requires t != [] && IsDigit(t[0]) && DigitRun(t) == n
    ensures ParseInt(t) == Some(Value(t[..n]))
  {
    NoLeadingSpace(t);
    assert t[0] != '-' && t[0] != '+';
  }

  lemma NoLeadingSpace(t: string)
    requires t != [] && !IsJsSpace(t[0])
    ensures SkipSpaces(t) == t
  {
  }

  /** A count cell holding the decimal digits of n counts n. */
  lemma CountOfDecimal(n: nat)
    ensures CountOf(Some(Decimal(n))) == n
  {
    ParseDecimal(n, []);
    assert Decimal(n) + [] == Decimal(n);
  }

  /** Text without a decimal digit is not a number. */
  lemma NoDigitsNoNumber(s: string)
    requires forall i :: 0 <= i < |s| ==> !IsDigit(s[i])
    ensures ParseInt(s) == None
  {
    var t := SkipSpaces(s);
    var u := if t != [] && (t[0] == '-' || t[0] == '+') then t[1..] else t;
    if u != [] {
      assert u[0] == s[|s| - |u|];
    }
  }

  /** A missing count cell, or one without digits, counts 0. */
  lemma CountWithoutDigits(cell: Option<string>)
    requires cell.Some? ==> forall i :: 0 <= i < |cell.value| ==> !IsDigit(cell.value[i])
    ensures CountOf(cell) == 0
  {
    if cell.Some? {
      NoDigitsNoNumber(cell.value);
    } else {
      var s := "undefined";
      forall i | 0 <= i < |s| ensures !IsDigit(s[i]) {
        assert s[i] in "undefin";
      }
      NoDigitsNoNumber(s);
    }
  }

  // ---------------------------------------------------------------------
  // getTopPages.

  const MaxLimit := 200

  datatype Slot = Slot(date: string, language: string)

  /** The database seen by the service: the count cell of each slot and the
      rows of each slot in ascending rank_by_views. */
  datatype Store<R> = Store(counts: map<Slot, string>, ranked: map<Slot, seq<R>>)

  /** The two parameterised queries, with the parameters they are sent. */
  datatype Query =
    | CountQuery(date: string, language: string)
    | ItemsQuery(date: string, language: string, limit: int, offset: int)

  /** GetTopPagesDto as the service receives it. */
  datatype TopPagesRequest = TopPagesRequest(date: string, lang: string, limit: int, offset: int)

  /** The params echoed in the envelope. */
  datatype Params = Params(date: string, lang: string, limit: int, offset: int)

  /** The answer (or the database's refusal) and the queries issued. */
  datatype Outcome<R> = Outcome(response: Result<PaginatedResponse<R, Params>, string>, queries: seq<Query>)

  function Min(a: int, b: int): int { if a <= b then a else b }
  function Max(a: int, b: int): int { if a >= b then a else b }

  /** LIMIT limit OFFSET offset over the ranked rows. */
  function Page<R>(rows: seq<R>, limit: nat, offset: nat): (items: seq<R>)
    ensures |items| == Max(0, Min(limit, |rows| - offset))
    ensures forall j :: 0 <= j < |items| ==> items[j] == rows[offset + j]
  {
    if offset >= |rows| then [] else rows[offset..Min(offset + limit, |rows|)]
  }

  function GetTopPages<R>(store: Store<R>, request: TopPagesRequest): (o: Outcome<R>)
    ensures 1 <= |o.queries| <= 2 && o.queries[0] == CountQuery(request.date, request.lang)
  {
    var safeLimit := Min(request.limit, MaxLimit);
    var safeOffset := Max(request.offset, 0);
    var params := Params(request.date, request.lang, safeLimit, safeOffset);
    var slot := Slot(request.date, request.lang);
    var countRead := CountQuery(request.date, request.lang);
    var total := RequestCount(store, request);
    if total == 0 then
      Outcome(Ok(BuildResponse([], 0, safeLimit, safeOffset, params)), [countRead])
    else
      var queries := [countRead, ItemsQuery(request.date, request.lang, safeLimit, safeOffset)];
      if safeLimit < 0 then
        Outcome(Err("LIMIT must not be negative"), queries)
      else
        var rows := if slot in store.ranked then store.ranked[slot] else [];
        Outcome(Ok(BuildResponse(Page(rows, safeLimit, safeOffset), total, safeLimit, safeOffset, params)), queries)
  }

  /** The count the service reads for a request. */
  function RequestCount<R>(store: Store<R>, request: TopPagesRequest): int
  {
    var slot := Slot(request.date, request.lang);
    CountOf(if slot in store.counts then Some(store.counts[slot]) else None)
  }

  /** The echoed params carry the request's date and language and the clamped
      limit and offset; the envelope's page_size is that limit. */
  lemma Clamped<R>(store: Store<R>, request: TopPagesRequest)
    ensures var o := GetTopPages(store, request);
      o.response.Ok? ==>
        var p := o.response.value.params;
        && p.date == request.date && p.lang == request.lang
        && p.limit <= MaxLimit && p.offset >= 0
        && (p.limit == request.limit || (request.limit > MaxLimit && p.limit == MaxLimit))
        && (p.offset == request.offset || (request.offset < 0 && p.offset == 0))
        && o.response.value.pageSize == p.limit
  {
  }

  /** Exactly one query is issued when the count is 0, and then the answer is
      empty with total 0. */
  lemma NoCountOneRead<R>(store: Store<R>, request: TopPagesRequest)
    ensures var o := GetTopPages(store, request);
      && (|o.queries| == 1 <==> RequestCount(store, request) == 0)
      && (RequestCount(store, request) == 0 ==>
            o.response.Ok? && o.response.value.items == [] && o.response.value.total == 0)
  {
  }

  /** With a nonzero count, the second query asks for the clamped slice, and
      the answer is the envelope buildResponse makes of that slice, the count
      and the clamped limit and offset; it fails only for a negative limit. */
  lemma CountTwoReads<R>(store: Store<R>, request: TopPagesRequest)
    requires RequestCount(store, request) != 0
    ensures var o := GetTopPages(store, request);
      var limit, offset := Min(request.limit, MaxLimit), Max(request.offset, 0);
      var slot := Slot(request.date, request.lang);
      var rows := if slot in store.ranked then store.ranked[slot] else [];
      && o.queries == [CountQuery(request.date, request.lang), ItemsQuery(request.date, request.lang, limit, offset)]
      && (o.response.Ok? <==> limit >= 0)
      && (o.response.Ok? ==>
            o.response.value == BuildResponse(Page(rows, limit, offset), RequestCount(store, request),
              limit, offset, Params(request.date, request.lang, limit, offset)))
  {
    TwoQueries(store, request);
    if Min(request.limit, MaxLimit) >= 0 {
      SliceResponse(store, request);
    }
  }

  /** The answer to a nonzero count: the slot's rows in rank order from the
      clamped offset, as many as the clamped limit and the rows left allow;
      total is the count, not their number; page_size is the clamped limit. */
  lemma TopPagesSlice<R>(store: Store<R>, request: TopPagesRequest)
    requires RequestCount(store, request) != 0
    ensures var o := GetTopPages(store, request);
      var limit, offset := Min(request.limit, MaxLimit), Max(request.offset, 0);
      var slot := Slot(request.date, request.lang);
      var rows := if slot in store.ranked then store.ranked[slot] else [];
      o.response.Ok? ==>
        var r := o.response.value;
        && r.total == RequestCount(store, request)
        && |r.items| == Max(0, Min(limit, |rows| - offset))
        && (forall j :: 0 <= j < |r.items| ==> r.items[j] == rows[offset + j])
        && r.pageSize == limit
  {
    CountTwoReads(store, request);
  }

  /** For a positive clamped limit, the page of the answer is offset div
      limit + 1, the page that holds the first row of the slice. */
  lemma TopPagesPageNumber<R>(store: Store<R>, request: TopPagesRequest)
    requires RequestCount(store, request) != 0 && request.limit >= 1
    ensures var o := GetTopPages(store, request);
      var limit, offset := Min(request.limit, MaxLimit), Max(request.offset, 0);
      o.response.Ok? && PageHolds(o.response.value.page, limit, offset)
  {
    var limit, offset := Min(request.limit, MaxLimit), Max(request.offset, 0);
    var slot := Slot(request.date, request.lang);
    var rows := if slot in store.ranked then store.ranked[slot] else [];
    CountTwoReads(store, request);
    EnvelopePage(GetTopPages(store, request).response.value, Page(rows, limit, offset),
      RequestCount(store, request), limit, offset, Params(request.date, request.lang, limit, offset));
  }

  lemma EnvelopePage<R>(r: PaginatedResponse<R, Params>, items: seq<R>, total: int, limit: int, offset: int, params: Params)
    requires limit >= 1 && offset >= 0 && r == BuildResponse(items, total, limit, offset, params)
    ensures PageHolds(r.page, limit, offset)
  {
    PageFormula(items, total, limit, offset, params);
  }

  /** page is offset div limit + 1 for a positive limit. */
  predicate PageHolds(page: PageNumber, limit: int, offset: int)
  {
    limit >= 1 && page == PageNumber.Page(offset / limit + 1)
  }

  /** With a nonzero count, both queries are sent, and the answer fails
      exactly when the clamped limit is negative. */
  lemma TwoQueries<R>(store: Store<R>, request: TopPagesRequest)
    requires RequestCount(store, request) != 0
    ensures var o := GetTopPages(store, request);
      var limit, offset := Min(request.limit, MaxLimit), Max(request.offset, 0);
      && o.queries == [CountQuery(request.date, request.lang), ItemsQuery(request.date, request.lang, limit, offset)]
      && (o.response.Ok? <==> limit >= 0)
  {
  }

  /** With a nonzero count and a limit that is not negative, the answer is the
      envelope around the slice. */
  lemma SliceResponse<R>(store: Store<R>, request: TopPagesRequest)
    requires RequestCount(store, request) != 0 && Min(request.limit, MaxLimit) >= 0
    ensures var limit, offset := Min(request.limit, MaxLimit), Max(request.offset, 0);
      var slot := Slot(request.date, request.lang);
      var rows := if slot in store.ranked then store.ranked[slot] else [];
      GetTopPages(store, request).response ==
        Ok(BuildResponse(Page(rows, limit, offset), RequestCount(store, request), limit, offset,
                         Params(request.date, request.lang, limit, offset)))
  {
  }

  /** A request for 500 rows asks the database for 200. */
  lemma LargeLimit<R>(store: Store<R>, request: TopPagesRequest)
    requires request.limit == 500 && RequestCount(store, request) != 0
    ensures GetTopPages(store, request).queries[1].limit == 200
  {
  }

  /** A count of "50" and one ranked row: two queries, the row, total 50. */
  lemma FiftyExample<R>(store: Store<R>, request: TopPagesRequest, row: R)
    requires request == TopPagesRequest("2025-10-01", "es", 10, 0)
    requires store == Store(map[Slot("2025-10-01", "es") := "50"], map[Slot("2025-10-01", "es") := [row]])
    ensures var o := GetTopPages(store, request);
      |o.queries| == 2 && o.response.Ok? && o.response.value.items == [row] && o.response.value.total == 50
  {
    CountOfDecimal(50);
    assert Decimal(50) == "50";
  }

  /** A count of "0": one query, no items, total 0. */
  lemma ZeroExample<R>(store: Store<R>, request: TopPagesRequest)
    requires request == TopPagesRequest("2025-10-01", "es", 10, 0)
    requires Slot("2025-10-01", "es") in store.counts && store.counts[Slot("2025-10-01", "es")] == "0"
    ensures var o := GetTopPages(store, request);
      |o.queries| == 1 && o.response.Ok? && o.response.value.items == [] && o.response.value.total == 0
  {
    CountOfDecimal(0);
    assert Decimal(0) == "0";
  }
}
