/**
 * Bounded catalog traversal with authenticated continuation cursors
 * (clients/seerr/client.go). A cursor is the state it encodes.
 */
module SeerrPaging {
  import opened Common

  const MAX_SEEN := 2048
  const MAX_REASONS := 256
  const MAX_PAGE_ARRAY := 1001
  const MAX_INT32 := 2147483647

  datatype Limits = Limits(maxPageSize: int, maxPages: int, maxRecords: int)

  // What New leaves in a client.
  predicate LimitsOk(c: Limits) {
    0 < c.maxPageSize <= c.maxRecords && c.maxPageSize <= 1000 && 0 < c.maxPages <= 100 && c.maxRecords <= 10000
  }

  datatype Catalog = MediaCatalog | RequestCatalog

  // A fixed code, or a code about the item at an index.
  datatype Reason = Code(text: string) | ItemCode(index: nat, text: string)

  datatype State = State(catalog: Catalog, limit: int, skip: int, pageCount: int, observed: int,
                         expectedTotal: int, expectedPages: int, pageSize: int, revision: string,
                         seen: seq<int>, reasons: seq<Reason>)

  // One listed record: its id, whether the rest of it normalizes, and the notes
  // that normalizing leaves.
  datatype Record = Record(id: int, valid: bool, notes: seq<string>)

  // The pageInfo object as sent; a field absent or null is None.
  datatype RawInfo = Missing | Garbled
    | Fields(pages: Option<int>, pageSize: Option<int>, results: Option<int>, page: Option<int>)

  datatype PageInfo = PageInfo(pages: int, pageSize: int, results: int, page: int, complete: bool, present: bool)

  // Failed: no response, or one that is not a page of records.
  datatype Reply = Failed | Body(values: seq<Record>, info: RawInfo, fingerprint: string)

  datatype Completeness = Complete | Partial | Unknown

  datatype Request = Request(take: int, skip: int)

  datatype Page = Page(items: seq<int>, info: PageInfo, next: Option<State>, completeness: Completeness,
                       observed: int, expected: int, reasons: seq<Reason>)

  function Min(a: int, b: int): int { if a < b then a else b }

  function Max(a: int, b: int): int { if a < b then b else a }

  // ------------------------------------------------------------ page information

  predicate InRange(f: Option<int>) { f.Some? ==> 0 <= f.value <= MAX_INT32 }

  function Or0(f: Option<int>): int { if f.Some? then f.value else 0 }

  predicate Contradictory(raw: RawInfo, count: nat)
    requires raw.Fields?
  {
    || (raw.results.Some? && raw.results.value < count)
    || (raw.pages == Some(0) && raw.results.Some? && raw.results.value != 0)
    || (raw.pageSize == Some(0) && raw.results.Some? && raw.results.value != 0)
    || raw.page == Some(0)
    || (raw.pages.Some? && raw.pages.value > 0 && raw.page.Some? && raw.page.value > raw.pages.value)
  }

  // decodePageInfo: None for an error.
  function DecodePageInfo(raw: RawInfo, count: nat): (r: Option<PageInfo>)
    ensures raw.Missing? ==> r.Some? && !r.value.present
    ensures r.Some? && raw.Fields? ==> r.value.present
    ensures raw.Fields? && raw.results.Some? && raw.results.value < count ==> r.None?
    ensures raw.Fields? && (raw.page == Some(0) || raw.results == Some(-1)) ==> r.None?
    ensures r.Some? && raw.Fields? && raw.results.Some? ==> r.value.results == raw.results.value
    ensures r.Some? && raw.Fields? && raw.pages.Some? ==> r.value.pages == raw.pages.value
    ensures r.Some? && raw.Fields? && raw.pageSize.Some? ==> r.value.pageSize == raw.pageSize.value
    ensures r.Some? && raw.Fields? && raw.page.Some? ==> r.value.page == raw.page.value
    ensures r.Some? && r.value.complete ==>
              && r.value.present && r.value.page >= 1 && count <= r.value.results
              && 0 <= r.value.pages && 0 <= r.value.pageSize && (r.value.pages > 0 ==> r.value.page <= r.value.pages)
  {
    match raw
    case Missing => Some(PageInfo(0, 0, 0, 0, false, false))
    case Garbled => None
    case Fields(pages, pageSize, results, page) =>
      if !InRange(pages) || !InRange(pageSize) || !InRange(results) || !InRange(page)
         || Contradictory(raw, count) then None
      else
        var complete := pages.Some? && pageSize.Some? && results.Some? && page.Some? && page.value >= 1
          && ((results.value == 0 && pages.value == 0) || (pages.value >= 1 && pageSize.value > 0));
        Some(PageInfo(Or0(pages), Or0(pageSize), Or0(results), Or0(page), complete, true))
  }

  // decodeMediaPage and decodeRequestPage
  function Decode(reply: Reply): Option<PageInfo> {
    if reply.Failed? || |reply.values| > MAX_PAGE_ARRAY then None else DecodePageInfo(reply.info, |reply.values|)
  }

  // What page information is accepted, and what an accepted one says: a field
  // left out counts as zero, and complete information states all four.
  lemma PageInfoMeans(raw: RawInfo, count: nat)
    ensures var r := DecodePageInfo(raw, count);
      match raw
      case Missing => r == Some(PageInfo(0, 0, 0, 0, false, false))
      case Garbled => r.None?
      case Fields(pages, pageSize, results, page) =>
        && (r.Some? <==>
              && (forall f :: f in {pages, pageSize, results, page} ==> f.None? || 0 <= f.value < 2147483648)
              && (results.Some? ==> count <= results.value)
              && (results.Some? && results.value > 0 ==> pages != Some(0) && pageSize != Some(0))
              && page != Some(0)
              && (page.Some? && pages.Some? && pages.value > 0 ==> page.value <= pages.value))
        && (r.Some? ==>
              && r.value.present
              && (pages == Some(r.value.pages) || (pages.None? && r.value.pages == 0))
              && (pageSize == Some(r.value.pageSize) || (pageSize.None? && r.value.pageSize == 0))
              && (results == Some(r.value.results) || (results.None? && r.value.results == 0))
              && (page == Some(r.value.page) || (page.None? && r.value.page == 0))
              && (r.value.complete <==>
                    && None !in {pages, pageSize, results, page}
                    && (if pages == Some(0) then results == Some(0) else pageSize != Some(0))))
  {
  }

  // An accepted response is a page of at most 1001 records.
  lemma ResponsesAreBounded(reply: Reply)
    ensures Decode(reply).Some? <==>
      reply.Body? && |reply.values| < 1002 && DecodePageInfo(reply.info, |reply.values|).Some?
    ensures Decode(reply).Some? ==> Decode(reply) == DecodePageInfo(reply.info, |reply.values|)
  {
    hide DecodePageInfo;
  }

  // ------------------------------------------------------------ reasons

  function AddReason(reasons: seq<Reason>, r: Reason): seq<Reason> {
    if r == Code("") || r in reasons || |reasons| >= MAX_REASONS then reasons else reasons + [r]
  }

  // A reason is kept once, in order, while there are fewer than 256.
  lemma ReasonsAreKept(reasons: seq<Reason>, r: Reason, x: Reason)
    ensures var after := AddReason(reasons, r);
      && reasons <= after && |after| <= |reasons| + 1
      && (x in after <==> x in reasons || (x == r && x != Code("") && |reasons| < 256))
  {
  }

  // Reasons only accumulate, within their bound.
  predicate More(before: seq<Reason>, after: seq<Reason>) {
    before <= after && (|before| <= MAX_REASONS ==> |after| <= MAX_REASONS)
  }

  const MISSING := Code("pagination_page_info_missing")
  const INCOMPLETE := Code("pagination_page_info_incomplete")
  const CHANGED := Code("pagination_page_info_changed")
  const NUMBER := Code("pagination_page_number_changed")
  const UNVERIFIED := Code("pagination_snapshot_unverified")
  const SHORT := Code("pagination_short_page_before_total")

  // The codes that decide how a traversal goes on are as they were.
  predicate SameFacts(before: seq<Reason>, after: seq<Reason>) {
    && (MISSING in after <==> MISSING in before) && (INCOMPLETE in after <==> INCOMPLETE in before)
    && (CHANGED in after <==> CHANGED in before) && (NUMBER in after <==> NUMBER in before)
    && (SHORT in after <==> SHORT in before)
  }

  predicate NoFacts(reasons: seq<Reason>) {
    MISSING !in reasons && INCOMPLETE !in reasons && CHANGED !in reasons && NUMBER !in reasons && SHORT !in reasons
  }

  // ------------------------------------------------------------ cursors

  predicate Distinct(ids: seq<int>) { forall i, j :: 0 <= i < j < |ids| ==> ids[i] != ids[j] }

  // What every cursor this client signs satisfies.
  predicate Issued(c: Limits, s: State) {
    && 0 < s.limit <= c.maxPageSize && 0 <= s.skip && 0 < s.pageCount < c.maxPages
    && s.observed == |s.seen| && s.observed < c.maxRecords && |s.seen| <= MAX_SEEN && Distinct(s.seen)
    && 0 <= s.expectedTotal && 0 <= s.expectedPages && 0 <= s.pageSize
    && 0 < |s.reasons| <= MAX_REASONS && NoFacts(s.reasons)
  }

  function PageLimit(c: Limits, requested: int): Option<int> {
    if requested <= 0 then Some(c.maxPageSize) else if requested > c.maxPageSize then None else Some(requested)
  }

  // decodeCursor after the signature
  predicate Decodable(c: Limits, s: State) {
    !(s.limit <= 0 || s.limit > c.maxPageSize || s.skip < 0 || s.pageCount < 0 || s.observed < 0
      || s.observed > c.maxRecords || s.expectedTotal < -1 || s.expectedPages < 0 || s.pageSize < 0
      || |s.seen| > MAX_SEEN || |s.reasons| > MAX_REASONS)
  }

  // startCursor; a cursor whose signature fails is not modelled.
  function StartCursor(c: Limits, catalog: Catalog, cursor: Option<State>, requested: int): Option<State> {
    match PageLimit(c, requested)
    case None => None
    case Some(limit) =>
      match cursor
      case None => Some(State(catalog, limit, 0, 0, 0, -1, 0, 0, "", [], []))
      case Some(s) =>
        if !Decodable(c, s) || s.catalog != catalog || (requested > 0 && s.limit != limit)
           || s.pageCount >= c.maxPages || s.observed >= c.maxRecords
        then None
        else Some(s)
  }

  // ------------------------------------------------------------ one page

  // Everything in s' but page expectations, revision and reasons is as in s.
  predicate SameProgress(s: State, s': State) {
    && s'.catalog == s.catalog && s'.limit == s.limit && s'.skip == s.skip && s'.pageCount == s.pageCount
    && s'.observed == s.observed && s'.seen == s.seen
  }

  // The first page of an unbroken traversal says nothing suspicious.
  predicate CleanInfo(s: State, info: PageInfo, rawCount: int) {
    && info.present && info.complete
    && (s.expectedTotal >= 0 ==>
         s.expectedTotal == info.results && s.expectedPages == info.pages && s.pageSize == info.pageSize)
    && info.page == (var size := if s.expectedTotal < 0 then info.pageSize else s.pageSize;
                     if size > 0 then s.skip / size + 1 else 1)
    && info.results <= info.pageSize && info.pages <= 1
    && !(rawCount > 0 && rawCount < info.pageSize && s.skip + rawCount < info.results)
  }

  // preparePageState
  method PreparePageState(s: State, info: PageInfo, rawCount: int, fingerprint: string) returns (s': State)
    requires 0 <= s.skip
    ensures SameProgress(s, s') && More(s.reasons, s'.reasons)
    ensures s'.revision == if s.revision == "" then fingerprint else s.revision
    ensures var first := info.present && info.complete && s.expectedTotal < 0;
      && s'.expectedTotal == (if first then info.results else s.expectedTotal)
      && s'.expectedPages == (if first then info.pages else s.expectedPages)
      && s'.pageSize == (if first then info.pageSize else s.pageSize)
    ensures s'.reasons == [] <==> s.reasons == [] && CleanInfo(s, info, rawCount)
    ensures info.present && info.complete && info.pages > 1 ==> s'.reasons != []
    ensures s.reasons == [] && !info.present ==> MISSING in s'.reasons
    ensures s.reasons == [] && info.present && !info.complete ==> INCOMPLETE in s'.reasons
    ensures s'.reasons == [] ==> info.present && info.complete
    ensures NoFacts(s.reasons) && MISSING in s'.reasons ==> !info.present
    ensures NoFacts(s.reasons) && INCOMPLETE in s'.reasons ==> info.present && !info.complete
    ensures NoFacts(s.reasons) && |s.reasons| <= 250 ==>
      && (MISSING in s'.reasons <==> !info.present)
      && (INCOMPLETE in s'.reasons <==> info.present && !info.complete)
      && (info.present && info.complete ==>
            && (CHANGED !in s'.reasons <==>
                  (s.expectedTotal >= 0 ==>
                     s.expectedTotal == info.results && s.expectedPages == info.pages && s.pageSize == info.pageSize))
            && (NUMBER in s'.reasons <==> info.page != if s'.pageSize > 0 then s.skip / s'.pageSize + 1 else 1)
            && (SHORT in s'.reasons <==> 0 < rawCount < info.pageSize && s.skip + rawCount < info.results))
  {
    hide AddReason;
    s' := s;
    if s'.revision == "" {
      s' := s'.(revision := fingerprint);
    }
    var reasons := s.reasons;
    if !info.present {
      reasons := Note(reasons, true, MISSING);
      s' := s'.(reasons := reasons);
      return;
    }
    if !info.complete {
      reasons := Note(reasons, true, INCOMPLETE);
      s' := s'.(reasons := reasons);
      return;
    }
    var changed := false;
    if s'.expectedTotal < 0 {
      s' := s'.(expectedTotal := info.results, expectedPages := info.pages, pageSize := info.pageSize);
    } else {
      changed := s'.expectedTotal != info.results || s'.expectedPages != info.pages || s'.pageSize != info.pageSize;
    }
    var expectedPage := 1;
    if s'.pageSize > 0 {
      expectedPage := s'.skip / s'.pageSize + 1;
    }
    var short := rawCount > 0 && rawCount < info.pageSize && s'.skip + rawCount < info.results;
    reasons := InfoReasons(reasons, changed, info.page != expectedPage,
                           info.results > info.pageSize || info.pages > 1, short);
    s' := s'.(reasons := reasons);
  }

  // The reasons that complete page information can give, in order.
  method InfoReasons(reasons: seq<Reason>, changed: bool, misplaced: bool, unverified: bool, short: bool)
    returns (reasons': seq<Reason>)
    ensures More(reasons, reasons')
    ensures reasons' == [] <==> reasons == [] && !changed && !misplaced && !unverified && !short
    ensures (MISSING in reasons' <==> MISSING in reasons) && (INCOMPLETE in reasons' <==> INCOMPLETE in reasons)
    ensures NoFacts(reasons) && |reasons| <= 250 ==>
      (CHANGED in reasons' <==> changed) && (NUMBER in reasons' <==> misplaced) && (SHORT in reasons' <==> short)
  {
    hide AddReason;
    reasons' := Note(reasons, changed, CHANGED);
    reasons' := Note(reasons', misplaced, NUMBER);
    reasons' := Note(reasons', unverified, UNVERIFIED);
    reasons' := Note(reasons', short, SHORT);
  }

  // addReason under a condition.
  method Note(reasons: seq<Reason>, when: bool, r: Reason) returns (reasons': seq<Reason>)
    requires r != Code("")
    ensures reasons' == if when then AddReason(reasons, r) else reasons
    ensures More(reasons, reasons') && (reasons' == [] <==> reasons == [] && !when)
    ensures when && reasons == [] ==> reasons' == [r]
    ensures MISSING != r ==> (MISSING in reasons' <==> MISSING in reasons)
    ensures INCOMPLETE != r ==> (INCOMPLETE in reasons' <==> INCOMPLETE in reasons)
    ensures CHANGED != r ==> (CHANGED in reasons' <==> CHANGED in reasons)
    ensures NUMBER != r ==> (NUMBER in reasons' <==> NUMBER in reasons)
    ensures SHORT != r ==> (SHORT in reasons' <==> SHORT in reasons)
    ensures r !in {MISSING, INCOMPLETE, CHANGED, NUMBER, SHORT} ==> SameFacts(reasons, reasons')
    ensures !when ==> reasons' == reasons
    ensures when && |reasons| < 256 ==> r in reasons'
    ensures |reasons'| <= |reasons| + 1
  {
    reasons' := reasons;
    if when {
      reasons' := AddReason(reasons, r);
    }
  }

  // The ids one page keeps: valid records not seen before, until the window of
  // remembered ids is full.
  function Kept(seen: seq<int>, values: seq<Record>): seq<int>
    decreases |values|
  {
    if values == [] then []
    else
      var v, rest := values[0], values[1..];
      if v.id <= 0 || !v.valid || v.id in seen then Kept(seen, rest)
      else if |seen| >= MAX_SEEN then []
      else [v.id] + Kept(seen + [v.id], rest)
  }

  function Ids(values: seq<Record>): (r: seq<int>)
    ensures |r| == |values|
  {
    seq(|values|, i requires 0 <= i < |values| => values[i].id)
  }

  predicate NoNotes(values: seq<Record>, n: nat)
    requires n <= |values|
  {
    forall i :: 0 <= i < n ==> values[i].notes == []
  }

  method KeepRecords(seen: seq<int>, reasons: seq<Reason>, values: seq<Record>)
    returns (seen': seq<int>, reasons': seq<Reason>, items: seq<int>)
    requires |seen| <= MAX_SEEN && Distinct(seen)
    ensures items == Kept(seen, values) && seen' == seen + items
    ensures Distinct(seen') && |seen'| <= MAX_SEEN && |items| <= |values|
    ensures More(reasons, reasons') && SameFacts(reasons, reasons')
    ensures reasons' == [] <==> reasons == [] && NoNotes(values, |values|) && |items| == |values|
  {
    hide AddReason, Distinct, Kept, SameFacts;
    FactsStay(reasons);
    seen', reasons', items := seen, reasons, [];
    assert values[0..] == values;
    for i := 0 to |values|
      invariant Kept(seen, values) == items + Kept(seen', values[i..])
      invariant seen' == seen + items && |items| <= i && |seen'| <= MAX_SEEN && Distinct(seen')
      invariant More(reasons, reasons') && SameFacts(reasons, reasons')
      invariant reasons' == [] <==> reasons == [] && NoNotes(values, i) && |items| == i
    {
      var v := values[i];
      KeptStep(seen', values, i);
      var noted := AddNotes(reasons', v.notes, i);
      FactsTwice(reasons, reasons', noted);
      reasons' := noted;
      if v.id <= 0 || !v.valid {
        reasons' := Note(noted, true, ItemCode(i, "identity_unknown"));
        FactsTwice(reasons, noted, reasons');
        continue;
      }
      if v.id in seen' {
        reasons' := Note(noted, true, Code("pagination_overlap"));
        FactsTwice(reasons, noted, reasons');
        continue;
      }
      if |seen'| >= MAX_SEEN {
        reasons' := Note(noted, true, Code("identity_window_limit"));
        FactsTwice(reasons, noted, reasons');
        return;
      }
      DistinctPush(seen', v.id);
      seen' := seen' + [v.id];
      items := items + [v.id];
    }
    assert values[|values|..] == [];
    KeptNone(seen');
    assert items + [] == items;
  }

  lemma KeptNone(seen: seq<int>)
    ensures Kept(seen, []) == []
  {
  }

  // Every record is valid and new, and all fit the window.
  predicate AllNew(seen: seq<int>, values: seq<Record>) {
    && (forall v :: v in values ==> v.id > 0 && v.valid && v.id !in seen)
    && Distinct(Ids(values)) && |seen| + |values| <= MAX_SEEN
  }

  // Exactly then is nothing dropped.
  lemma {:induction false} NothingDropped(seen: seq<int>, values: seq<Record>)
    requires |seen| <= MAX_SEEN
    ensures |Kept(seen, values)| <= |values|
    ensures |Kept(seen, values)| == |values| <==> AllNew(seen, values)
    ensures AllNew(seen, values) ==> Kept(seen, values) == Ids(values)
    decreases |values|
  {
    if values != [] {
      var v, rest := values[0], values[1..];
      assert values == [v] + rest && Ids(values) == [v.id] + Ids(rest);
      NothingDropped(seen, rest);
      if v.id > 0 && v.valid && v.id !in seen && |seen| < MAX_SEEN {
        NothingDropped(seen + [v.id], rest);
        AllNewStep(seen, v, rest);
      }
    }
  }

  lemma AllNewStep(seen: seq<int>, v: Record, rest: seq<Record>)
    requires v.id > 0 && v.valid && v.id !in seen
    ensures AllNew(seen, [v] + rest) <==> AllNew(seen + [v.id], rest)
  {
    hide Distinct;
    var all := [v] + rest;
    assert Ids(all) == [v.id] + Ids(rest);
    DistinctHead(v.id, Ids(rest));
    assert v.id in Ids(rest) <==> exists w :: w in rest && w.id == v.id by { IdIn(v.id, rest); }
    assert forall w :: w in all <==> w == v || w in rest;
    assert forall x :: x in seen + [v.id] <==> x in seen || x == v.id;
  }

  lemma IdIn(id: int, values: seq<Record>)
    ensures id in Ids(values) <==> exists w :: w in values && w.id == id
  {
    if exists w :: w in values && w.id == id {
      var i :| 0 <= i < |values| && values[i].id == id;
      assert Ids(values)[i] == id;
    }
  }

  lemma DistinctHead(id: int, ids: seq<int>)
    ensures Distinct([id] + ids) <==> id !in ids && Distinct(ids)
  {
    var all := [id] + ids;
    if Distinct(all) {
      forall i, j | 0 <= i < j < |ids| ensures ids[i] != ids[j] {
        assert all[i + 1] != all[j + 1];
      }
      forall i | 0 <= i < |ids| ensures ids[i] != id {
        assert all[0] != all[i + 1];
      }
    }
  }

  lemma FactsStay(reasons: seq<Reason>)
    ensures SameFacts(reasons, reasons)
  {
  }

  lemma FactsTwice(a: seq<Reason>, b: seq<Reason>, c: seq<Reason>)
    requires SameFacts(a, b) && SameFacts(b, c)
    ensures SameFacts(a, c)
  {
  }

  // The per-record notes.
  method AddNotes(reasons: seq<Reason>, notes: seq<string>, index: nat) returns (reasons': seq<Reason>)
    ensures More(reasons, reasons') && (reasons' == [] <==> reasons == [] && notes == []) && SameFacts(reasons, reasons')
  {
    reasons' := reasons;
    for k := 0 to |notes|
      invariant More(reasons, reasons') && (reasons' == [] <==> reasons == [] && k == 0) && SameFacts(reasons, reasons')
    {
      reasons' := AddReason(reasons', ItemCode(index, notes[k]));
    }
  }

  lemma DistinctPush(ids: seq<int>, id: int)
    requires Distinct(ids) && id !in ids
    ensures Distinct(ids + [id])
  {
  }

  lemma KeptStep(seen: seq<int>, values: seq<Record>, i: nat)
    requires i < |values|
    ensures var v := values[i];
      Kept(seen, values[i..]) ==
        if v.id <= 0 || !v.valid || v.id in seen then Kept(seen, values[i + 1..])
        else if |seen| >= MAX_SEEN then []
        else [v.id] + Kept(seen + [v.id], values[i + 1..])
  {
    assert values[i..][0] == values[i] && values[i..][1..] == values[i + 1..];
  }

  // Another page may be asked for.
  predicate Continues(c: Limits, s: State, info: PageInfo, rawCount: int) {
    && info.present && info.complete && CHANGED !in s.reasons && NUMBER !in s.reasons && SHORT !in s.reasons
    && s.skip < info.results && info.page < info.pages && rawCount != 0
    && s.pageCount < c.maxPages && s.observed < c.maxRecords
  }

  // Client.more
  method HasMore(c: Limits, s: State, info: PageInfo, rawCount: int) returns (more: bool, reasons: seq<Reason>)
    ensures more <==> Continues(c, s, info, rawCount)
    ensures More(s.reasons, reasons) && (more ==> reasons == s.reasons) && SameFacts(s.reasons, reasons)
    ensures s.reasons == [] && info.present && info.complete ==>
      (reasons == [] <==> more || (s.skip >= info.results && info.page >= info.pages))
  {
    hide AddReason;
    reasons := s.reasons;
    if !info.present || !info.complete || CHANGED in s.reasons || NUMBER in s.reasons || SHORT in s.reasons {
      return false, reasons;
    }
    var byTotal := s.skip < info.results;
    var byPage := info.page < info.pages;
    if byTotal != byPage {
      reasons := Note(reasons, true, Code("pagination_page_info_inconsistent"));
      return false, reasons;
    }
    if rawCount == 0 && byTotal {
      reasons := Note(reasons, true, Code("pagination_empty_before_total"));
      return false, reasons;
    }
    if s.pageCount >= c.maxPages && byTotal {
      reasons := Note(reasons, true, Code("pagination_limit"));
      return false, reasons;
    }
    if s.observed >= c.maxRecords && byTotal {
      reasons := Note(reasons, true, Code("records_limit"));
      return false, reasons;
    }
    return byTotal, reasons;
  }

  // coverageFromState
  function CoverageOf(s: State, more: bool): Completeness {
    if s.expectedTotal < 0 || MISSING in s.reasons || INCOMPLETE in s.reasons then Unknown
    else if more || s.reasons != [] then Partial
    else Complete
  }

  // finishMediaPage; fits says whether the encoded cursor stays within its size.
  method FinishPage(s: State, more: bool, fits: bool, items: seq<int>, info: PageInfo) returns (page: Page)
    ensures page.items == items && page.info == info && page.observed == s.observed
    ensures page.expected == if s.expectedTotal > 0 then s.expectedTotal else 0
    ensures page.next == if more && fits && |s.seen| <= MAX_SEEN && |s.reasons| <= MAX_REASONS then Some(s) else None
    ensures page.next.Some? ==> page.completeness == Partial && page.reasons == s.reasons
    ensures page.next.None? ==>
      && (page.completeness == Complete ==> !more || s.reasons != [])
      && (!more ==> page.completeness == CoverageOf(s, false) && page.reasons == s.reasons)
      && (more ==> page.completeness != Complete)
    ensures page.next.None? ==>
      page.completeness ==
        if s.expectedTotal < 0 || MISSING in s.reasons || INCOMPLETE in s.reasons then Unknown
        else if more || s.reasons != [] then Partial else Complete
  {
    hide AddReason;
    var completeness := CoverageOf(s, more);
    var next := None;
    var reasons := s.reasons;
    if more {
      if |s.seen| <= MAX_SEEN && |s.reasons| <= MAX_REASONS && fits {
        next := Some(s);
        completeness := Partial;
      } else {
        reasons := Note(reasons, true, Code("pagination_cursor_limit"));
        completeness := CoverageOf(s.(reasons := reasons), false);
      }
    }
    page := Page(items, info, next, completeness, s.observed, Max(s.expectedTotal, 0),
                 if next.Some? then s.reasons else reasons);
  }

  // The records of a response that a page looks at.
  function Window(values: seq<Record>, limit: int, room: int): seq<Record>
    requires 0 <= limit && 0 <= room
  {
    values[..Min(|values|, Min(limit, room))]
  }

  // Every record of a first response counts: a catalog that fits one page and
  // says so.
  predicate WholeCatalog(limit: int, values: seq<Record>, info: PageInfo) {
    && info.present && info.complete && info.page == 1 && info.pages <= 1
    && info.results == |values| && |values| <= info.pageSize && |values| <= limit
    && AllNew([], values) && NoNotes(values, |values|)
  }

  predicate ShowsAll(limit: int, reply: Reply) { Decode(reply).Some? && WholeCatalog(limit, reply.values,
    Decode(reply).value) }

  predicate CursorOk(c: Limits, cursor: Option<State>) { cursor.Some? ==> Issued(c, cursor.value) }

  // What a continuation cursor carries, and that this client takes it back.
  predicate NextOk(c: Limits, catalog: Catalog, requested: int, s: State, next: State, count: nat, items: seq<int>) {
    && Issued(c, next) && StartCursor(c, catalog, Some(next), requested) == Some(next)
    && next.limit == s.limit && next.skip == s.skip + Min(count, s.limit) && next.pageCount == s.pageCount + 1
    && next.seen == s.seen + items
  }

  // ListMedia and ListRequests: the request sent, if any, and the page, if any.
  method ListPage(c: Limits, catalog: Catalog, cursor: Option<State>, requested: int, reply: Reply, fits: bool)
    returns (sent: Option<Request>, page: Option<Page>)
    requires LimitsOk(c) && CursorOk(c, cursor)
    ensures sent.Some? <==> StartCursor(c, catalog, cursor, requested).Some?
    ensures page.Some? <==> sent.Some? && Decode(reply).Some?
    ensures sent.Some? ==>
      (var s := StartCursor(c, catalog, cursor, requested).value; sent.value == Request(s.limit, s.skip))
    ensures page.Some? ==> (var s := StartCursor(c, catalog, cursor, requested).value;
      && 0 < s.limit && s.observed == |s.seen| && s.observed <= c.maxRecords
      && page.value.items == Kept(s.seen, Window(reply.values, s.limit, c.maxRecords - s.observed))
      && page.value.observed == s.observed + |page.value.items| <= c.maxRecords
      && Distinct(s.seen + page.value.items)
      && (page.value.next.Some? ==>
           NextOk(c, catalog, requested, s, page.value.next.value, |reply.values|, page.value.items)))
    ensures page.Some? && page.value.next.Some? ==> page.value.completeness == Partial
    ensures sent.Some? <==>
      && requested <= c.maxPageSize
      && (cursor.Some? ==> cursor.value.catalog == catalog && (requested > 0 ==> cursor.value.limit == requested))
    ensures sent.Some? ==>
      && sent.value.skip == (if cursor.None? then 0 else cursor.value.skip)
      && sent.value.take == (if cursor.Some? then cursor.value.limit
                             else if requested > 0 then requested else c.maxPageSize)
    ensures page.Some? && (cursor.Some? ==> |cursor.value.reasons| <= 250) ==>
      (page.value.completeness == Unknown <==> !(page.value.info.present && page.value.info.complete))
    ensures page.Some? && (cursor.Some? ==> |cursor.value.reasons| <= 250) ==>
      var (info, n) := (page.value.info, |reply.values|);
      var (skip, pageCount, observed) :=
        if cursor.Some? then (cursor.value.skip, cursor.value.pageCount, cursor.value.observed) else (0, 0, 0);
      var size := if cursor.Some? then cursor.value.pageSize else info.pageSize;
      (page.value.next.Some? <==>
         && fits && info.present && info.complete
         && (cursor.Some? ==> cursor.value.expectedTotal == info.results && cursor.value.expectedPages == info.pages
                              && cursor.value.pageSize == info.pageSize)
         && info.page == (if size > 0 then skip / size + 1 else 1)
         && !(0 < n < info.pageSize && skip + n < info.results)
         && skip + Min(n, sent.value.take) < info.results && info.page < info.pages && n != 0
         && pageCount + 1 < c.maxPages && observed + |page.value.items| < c.maxRecords)
    ensures page.Some? ==>
      (page.value.completeness == Complete <==>
         cursor.None? && ShowsAll(PageLimit(c, requested).value, reply))
  {
    hide AddReason, Distinct, Kept, DecodePageInfo, CleanInfo, AllNew, NoNotes, WholeCatalog, StartCursor, Issued,
      Window;
    StartMeans(c, catalog, cursor, requested);
    var start := StartCursor(c, catalog, cursor, requested);
    if start.None? {
      return None, None;
    }
    StartOk(c, catalog, cursor, requested);
    var s := start.value;
    sent := Some(Request(s.limit, s.skip));
    var decoded := Decode(reply);
    if decoded.None? {
      return sent, None;
    }
    var info := decoded.value;
    var prepared := PreparePageState(s, info, |reply.values|, reply.fingerprint);
    var rawCount, values, reasons := Truncate(c, prepared, reply.values);
    var seen, items;
    seen, reasons, items := KeepRecords(prepared.seen, reasons, values);
    var done := prepared.(seen := seen, skip := s.skip + rawCount, pageCount := s.pageCount + 1,
                          observed := s.observed + |items|, reasons := reasons);
    var more, stopped := HasMore(c, done, info, rawCount);
    done := done.(reasons := stopped);
    var result := FinishPage(done, more, fits, items, info);
    page := Some(result);
    DecodeFacts(reply);
    if result.next.Some? {
      NextAccepted(c, catalog, requested, s, prepared, done, info, rawCount);
    }
    if cursor.None? {
      CompleteIff(c, s, reply.values, info);
    }
  }

  // The response cut to the limit and to the records still allowed.
  method Truncate(c: Limits, s: State, all: seq<Record>)
    returns (rawCount: int, values: seq<Record>, reasons: seq<Reason>)
    requires 0 < s.limit && 0 <= s.observed <= c.maxRecords
    ensures values == Window(all, s.limit, c.maxRecords - s.observed) && rawCount == Min(|all|, s.limit)
    ensures SameFacts(s.reasons, reasons)
    ensures More(s.reasons, reasons) && |values| <= c.maxRecords - s.observed && |values| <= rawCount <= |all|
    ensures reasons == [] <==> s.reasons == [] && |values| == |all|
  {
    hide AddReason;
    rawCount, values := |all|, all;
    reasons := Note(s.reasons, rawCount > s.limit, Code("pagination_response_exceeded_limit"));
    if rawCount > s.limit {
      rawCount := s.limit;
      values := values[..rawCount];
    }
    var remaining := c.maxRecords - s.observed;
    reasons := Note(reasons, remaining < |values|, Code("records_limit"));
    if remaining < |values| {
      values := values[..remaining];
    }
  }

  lemma DecodeFacts(reply: Reply)
    requires Decode(reply).Some?
    ensures var info := Decode(reply).value;
      info.complete ==> info.page >= 1 && |reply.values| <= info.results && 0 <= info.pages && 0 <= info.pageSize
  {
    hide DecodePageInfo;
  }

  // Every state a page starts from, its cursor being one of this client's.
  lemma StartOk(c: Limits, catalog: Catalog, cursor: Option<State>, requested: int)
    requires LimitsOk(c) && CursorOk(c, cursor) && StartCursor(c, catalog, cursor, requested).Some?
    ensures var s := StartCursor(c, catalog, cursor, requested).value;
      && 0 < s.limit <= c.maxPageSize && 0 <= s.skip && 0 <= s.pageCount < c.maxPages && s.catalog == catalog
      && s.observed == |s.seen| && s.observed < c.maxRecords && |s.seen| <= MAX_SEEN && Distinct(s.seen)
      && |s.reasons| <= MAX_REASONS && (requested > 0 ==> s.limit == requested) && requested <= c.maxPageSize
      && (s.reasons == [] <==> cursor.None?)
      && (cursor.None? ==>
           s.limit == PageLimit(c, requested).value && s == State(catalog, s.limit, 0, 0, 0, -1, 0, 0, "", [], []))
      && (cursor.Some? ==> s.expectedTotal >= 0 && s.expectedPages >= 0 && s.pageSize >= 0)
  {
  }

  // When a page starts, and from what state.
  lemma StartMeans(c: Limits, catalog: Catalog, cursor: Option<State>, requested: int)
    requires LimitsOk(c) && CursorOk(c, cursor)
    ensures StartCursor(c, catalog, cursor, requested).Some? <==>
      && requested <= c.maxPageSize
      && (cursor.Some? ==> cursor.value.catalog == catalog && (requested > 0 ==> cursor.value.limit == requested))
    ensures StartCursor(c, catalog, cursor, requested).Some? ==>
      var s := StartCursor(c, catalog, cursor, requested).value;
      && (cursor.Some? ==> s == cursor.value && NoFacts(s.reasons))
      && (cursor.None? ==>
            && s.skip == 0 && s.pageCount == 0 && s.observed == 0 && s.expectedTotal == -1 && s.reasons == []
            && s.limit == if requested > 0 then requested else c.maxPageSize)
  {
  }

  // Any authentic cursor, whoever issued it, is taken exactly within the bounds
  // of this client.
  lemma CursorsAreChecked(c: Limits, catalog: Catalog, s: State, requested: int)
    requires LimitsOk(c)
    ensures StartCursor(c, catalog, Some(s), requested) in {None, Some(s)}
    ensures StartCursor(c, catalog, Some(s), requested).Some? <==>
      && requested <= c.maxPageSize && s.catalog == catalog && 0 < s.limit <= c.maxPageSize
      && (requested > 0 ==> s.limit == requested)
      && 0 <= s.skip && 0 <= s.pageCount < c.maxPages && 0 <= s.observed < c.maxRecords
      && -1 <= s.expectedTotal && 0 <= s.expectedPages && 0 <= s.pageSize && |s.seen| <= 2048 && |s.reasons| <= 256
  {
  }

  // A state with another page to come is one this client will take back.
  lemma NextAccepted(c: Limits, catalog: Catalog, requested: int, s: State, prepared: State, done: State,
    info: PageInfo, rawCount: int)
    requires LimitsOk(c) && Continues(c, done, info, rawCount)
    requires 0 < s.limit <= c.maxPageSize && 0 <= s.skip && 0 <= s.pageCount && 0 <= rawCount
    requires s.catalog == catalog && (requested > 0 ==> s.limit == requested) && requested <= c.maxPageSize
    requires done.catalog == s.catalog && done.limit == s.limit && done.skip == s.skip + rawCount
    requires done.pageCount == s.pageCount + 1
    requires done.observed == |done.seen| && |done.seen| <= MAX_SEEN && Distinct(done.seen)
    requires 0 < |done.reasons| <= MAX_REASONS
    requires 0 <= done.expectedTotal && 0 <= done.expectedPages && 0 <= done.pageSize
    requires MISSING !in done.reasons && INCOMPLETE !in done.reasons
    ensures Issued(c, done) && StartCursor(c, catalog, Some(done), requested) == Some(done)
  {
    hide Distinct;
  }

  // A traversal's first page is complete exactly when it is a whole catalog.
  lemma CompleteIff(c: Limits, s: State, values: seq<Record>, info: PageInfo)
    requires LimitsOk(c) && 0 < s.limit <= c.maxPageSize && s.skip == 0 && s.observed == 0 && s.seen == []
    requires s.expectedTotal == -1
    requires info.complete ==> info.page >= 1 && |values| <= info.results && 0 <= info.pages
    ensures var w := Window(values, s.limit, c.maxRecords);
      (&& CleanInfo(s, info, |values|) && |w| == |values| && NoNotes(w, |w|) && |Kept([], w)| == |w|
       && |w| >= info.results && info.page >= info.pages)
      <==> WholeCatalog(s.limit, values, info)
  {
    var w := Window(values, s.limit, c.maxRecords);
    NothingDropped([], w);
    if |w| == |values| {
      assert w == values;
    }
  }

  // Consecutive requests of one traversal leave no gap and repeat nothing.
  predicate Contiguous(limit: int, server: nat -> Reply, requests: seq<Request>) {
    && (forall k :: 0 <= k < |requests| ==> requests[k].take == limit)
    && (|requests| > 0 ==> requests[0].skip == 0)
    && forall k :: 0 <= k < |requests| - 1 ==> Follows(limit, server(k), requests[k], requests[k + 1])
  }

  lemma ContiguousMeans(limit: int, server: nat -> Reply, requests: seq<Request>)
    requires Contiguous(limit, server, requests) && requests != []
    ensures requests[0].skip == 0 && forall r :: r in requests ==> r.take == limit
    ensures forall k :: 0 <= k < |requests| - 1 ==>
      && server(k).Body?
      && requests[k + 1].skip - requests[k].skip == if |server(k).values| < limit then |server(k).values| else limit
  {
    forall k | 0 <= k < |requests| - 1
      ensures server(k).Body?
      ensures requests[k + 1].skip - requests[k].skip ==
                if |server(k).values| < limit then |server(k).values| else limit
    {
      assert Follows(limit, server(k), requests[k], requests[k + 1]);
    }
  }

  predicate Follows(limit: int, reply: Reply, a: Request, b: Request) {
    Decode(reply).Some? && b.skip == a.skip + Min(|reply.values|, limit)
  }

  // ListAllMedia and ListAllRequests against any server, whose response to the
  // k-th request is server(k).
  method ListAll(c: Limits, catalog: Catalog, requested: int, server: nat -> Reply, fits: nat -> bool)
    returns (ok: bool, items: seq<int>, completeness: Completeness, observed: int, requests: seq<Request>)
    requires LimitsOk(c)
    ensures |requests| <= c.maxPages
    ensures PageLimit(c, requested).None? ==> !ok && requests == []
    ensures PageLimit(c, requested).Some? ==>
      && requests != [] && Contiguous(PageLimit(c, requested).value, server, requests)
      && (ok <==> Decode(server(|requests| - 1)).Some?)
    ensures Distinct(items) && |items| <= c.maxRecords && (ok ==> observed == |items|)
    ensures ok && completeness == Complete <==>
      PageLimit(c, requested).Some? && ShowsAll(PageLimit(c, requested).value, server(0))
    ensures ok && completeness == Complete <==>
      && requested <= c.maxPageSize && server(0).Body? && server(0).info.Fields?
      && var (values, f) := (server(0).values, server(0).info);
         && |values| <= 1001 && |values| <= (if requested > 0 then requested else c.maxPageSize)
         && f.page == Some(1) && f.results == Some(|values|) && f.pages.Some? && f.pageSize.Some?
         && 0 <= f.pages.value <= 1 && |values| <= f.pageSize.value <= 2147483647
         && (f.pages.value == 0 ==> |values| == 0) && (f.pages.value == 1 ==> f.pageSize.value > 0)
         && (forall i :: 0 <= i < |values| ==> values[i].id > 0 && values[i].valid && values[i].notes == [])
         && forall i, j :: 0 <= i < j < |values| ==> values[i].id != values[j].id
    ensures ok && completeness == Complete ==>
      |requests| == 1 && items == Ids(server(0).values) && |items| == Decode(server(0)).value.results
  {
    hide Distinct, WholeCatalog, Kept, Window, StartCursor, Contiguous, DecodePageInfo;
    ShowsAllMeans(c, if requested > 0 then requested else c.maxPageSize, server(0));
    ok, items, completeness, observed, requests := false, [], Unknown, 0, [];
    Starts(c, catalog, requested);
    EmptyRun(PageLimit(c, requested), server);
    var cursor: Option<State> := None;
    while true
      invariant CursorOk(c, cursor) && StartCursor(c, catalog, cursor, requested).Some? == PageLimit(c, requested).Some?
      invariant if cursor.None? then requests == [] && items == []
                else (PageLimit(c, requested).Some? && requests != []
                  && StartCursor(c, catalog, cursor, requested) == cursor && cursor.value.pageCount == |requests|
                  && cursor.value.seen == items
                  && cursor.value.limit == PageLimit(c, requested).value
                  && Follows(cursor.value.limit, server(|requests| - 1), requests[|requests| - 1],
                             Request(cursor.value.limit, cursor.value.skip))
                  && !ShowsAll(cursor.value.limit, server(0)))
      invariant PageLimit(c, requested).Some? ==> Contiguous(PageLimit(c, requested).value, server, requests)
      invariant !ok && Distinct(items) && |items| <= c.maxRecords
      decreases c.maxPages - |requests|
    {
      var n := |requests|;
      var sent, page := ListPage(c, catalog, cursor, requested, server(n), fits(n));
      if sent.None? {
        return;
      }
      StartOk(c, catalog, cursor, requested);
      assert cursor.None? ==> StartCursor(c, catalog, cursor, requested).value.seen == items;
      OneRequestMore(PageLimit(c, requested).value, server, requests, sent.value);
      requests := requests + [sent.value];
      if page.None? {
        return;
      }
      var before := items;
      items := items + page.value.items;
      completeness := page.value.completeness;
      if page.value.next.None? {
        ok := true;
        observed := |items|;
        if completeness == Complete {
          WholeIsKept(c, PageLimit(c, requested).value, server(0));
        }
        return;
      }
      cursor := page.value.next;
    }
  }

  // A response that shows the whole catalog, in terms of what was sent.
  lemma ShowsAllMeans(c: Limits, limit: int, reply: Reply)
    requires LimitsOk(c) && 0 < limit
    ensures limit <= c.maxPageSize ==> (ShowsAll(limit, reply) <==>
      && reply.Body? && reply.info.Fields?
      && var (values, f) := (reply.values, reply.info);
         && |values| <= 1001 && |values| <= limit
         && f.page == Some(1) && f.results == Some(|values|) && f.pages.Some? && f.pageSize.Some?
         && 0 <= f.pages.value <= 1 && |values| <= f.pageSize.value <= 2147483647
         && (f.pages.value == 0 ==> |values| == 0) && (f.pages.value == 1 ==> f.pageSize.value > 0)
         && (forall i :: 0 <= i < |values| ==> values[i].id > 0 && values[i].valid && values[i].notes == [])
         && forall i, j :: 0 <= i < j < |values| ==> values[i].id != values[j].id)
  {
    if reply.Body? {
      NewMeans(reply.values);
    }
  }

  lemma NewMeans(values: seq<Record>)
    ensures |values| <= 2048 ==> (AllNew([], values) <==>
      && (forall i :: 0 <= i < |values| ==> values[i].id > 0 && values[i].valid)
      && forall i, j :: 0 <= i < j < |values| ==> values[i].id != values[j].id)
  {
    assert forall i :: 0 <= i < |values| ==> Ids(values)[i] == values[i].id;
  }

  // The record at n is valid, new, and the first valid one with its id.
  predicate FirstOf(seen: seq<int>, values: seq<Record>, n: nat) {
    && n < |values| && values[n].id > 0 && values[n].valid && values[n].id !in seen
    && forall j :: 0 <= j < n && values[j].valid ==> values[j].id != values[n].id
  }

  // What a page keeps: valid new records, each at its first occurrence and in order.
  lemma {:induction false} KeptMeans(seen: seq<int>, values: seq<Record>) returns (at: seq<nat>)
    ensures |at| == |Kept(seen, values)| && forall i, j :: 0 <= i < j < |at| ==> at[i] < at[j]
    ensures forall i :: 0 <= i < |at| ==> FirstOf(seen, values, at[i]) && Kept(seen, values)[i] == values[at[i]].id
    decreases |values|
  {
    hide FirstOf;
    if values == [] {
      at := [];
    } else {
      var v, rest := values[0], values[1..];
      assert values == [v] + rest;
      if v.id <= 0 || !v.valid || v.id in seen {
        var later := KeptMeans(seen, rest);
        at := Later(later);
        FirstsLater(seen, v, rest, later);
      } else if |seen| >= MAX_SEEN {
        at := [];
      } else {
        var later := KeptMeans(seen + [v.id], rest);
        at := [0] + Later(later);
        KeptHead(seen, v, rest);
        FirstHead(seen, v, rest);
        FirstsAfter(seen, v, rest, later);
      }
    }
  }

  lemma FirstHead(seen: seq<int>, v: Record, rest: seq<Record>)
    requires v.id > 0 && v.valid && v.id !in seen
    ensures FirstOf(seen, [v] + rest, 0)
  {
  }

  lemma FirstsLater(seen: seq<int>, v: Record, rest: seq<Record>, later: seq<nat>)
    requires v.id <= 0 || !v.valid || v.id in seen
    requires forall i :: 0 <= i < |later| ==> FirstOf(seen, rest, later[i])
    ensures forall i :: 0 <= i < |later| ==>
      FirstOf(seen, [v] + rest, later[i] + 1) && ([v] + rest)[later[i] + 1] == rest[later[i]]
  {
  }

  lemma FirstsAfter(seen: seq<int>, v: Record, rest: seq<Record>, later: seq<nat>)
    requires forall i :: 0 <= i < |later| ==> FirstOf(seen + [v.id], rest, later[i])
    ensures forall i :: 0 <= i < |later| ==>
      FirstOf(seen, [v] + rest, later[i] + 1) && ([v] + rest)[later[i] + 1] == rest[later[i]]
  {
    assert v.id in seen + [v.id] && forall x :: x in seen ==> x in seen + [v.id];
  }

  function Later(at: seq<nat>): (r: seq<nat>)
    ensures |r| == |at| && forall i :: 0 <= i < |at| ==> r[i] == at[i] + 1
  {
    seq(|at|, i requires 0 <= i < |at| => at[i] + 1)
  }

  // And all of these, as long as the window of remembered ids has room.
  lemma {:induction false} KeptAll(seen: seq<int>, values: seq<Record>, v: Record)
    requires |seen| + |values| <= 2048 && v in values && v.id > 0 && v.valid && v.id !in seen
    ensures v.id in Kept(seen, values)
    decreases |values|
  {
    var first, rest := values[0], values[1..];
    assert values == [first] + rest;
    if first.id <= 0 || !first.valid || first.id in seen {
      KeptAll(seen, rest, v);
    } else {
      KeptHead(seen, first, rest);
      if first.id != v.id {
        KeptAll(seen + [first.id], rest, v);
      }
    }
  }

  lemma KeptHead(seen: seq<int>, v: Record, rest: seq<Record>)
    requires v.id > 0 && v.valid && v.id !in seen && |seen| < MAX_SEEN
    ensures Kept(seen, [v] + rest) == [v.id] + Kept(seen + [v.id], rest)
    ensures forall x :: x in seen + [v.id] <==> x in seen || x == v.id
  {
    assert ([v] + rest)[1..] == rest;
  }

  lemma Starts(c: Limits, catalog: Catalog, requested: int)
    requires LimitsOk(c)
    ensures StartCursor(c, catalog, None, requested).Some? == PageLimit(c, requested).Some?
    ensures Distinct([])
  {
  }

  lemma EmptyRun(limit: Option<int>, server: nat -> Reply)
    ensures limit.Some? ==> Contiguous(limit.value, server, [])
  {
  }

  lemma OneRequestMore(limit: int, server: nat -> Reply, requests: seq<Request>, next: Request)
    requires Contiguous(limit, server, requests) && next.take == limit
    requires if requests == [] then next.skip == 0
             else Follows(limit, server(|requests| - 1), requests[|requests| - 1], next)
    ensures Contiguous(limit, server, requests + [next])
  {
    var more := requests + [next];
    forall k | 0 <= k < |more| - 1 ensures Follows(limit, server(k), more[k], more[k + 1]) {
      assert k < |requests| - 1 ==> more[k] == requests[k] && more[k + 1] == requests[k + 1];
    }
  }

  lemma WholeIsKept(c: Limits, limit: int, reply: Reply)
    requires LimitsOk(c) && 0 < limit <= c.maxPageSize && ShowsAll(limit, reply)
    ensures Kept([], Window(reply.values, limit, c.maxRecords)) == Ids(reply.values)
    ensures |reply.values| == Decode(reply).value.results
  {
    NothingDropped([], reply.values);
    assert Window(reply.values, limit, c.maxRecords) == reply.values;
  }
}
