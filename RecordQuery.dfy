/**
 * `getRecords`: the stored records, kept in order through the category, date,
 * period and search filters, then optionally sorted on one field.
 */
module RecordQuery {
  import opened Wrappers
  import opened JsRuntime
  import opened Calendar
  import opened Schema

  /**
   * The filters object. A filter is supplied when its string is non-empty
   * (truthy); `sortOrder` is compared with 'desc' only.
   */
  datatype Filters = Filters(
    category: string,
    date: string,
    startDate: string,
    endDate: string,
    search: string,
    sortBy: string,
    sortOrder: string)

  /** No filter and no sort: `getRecords()`. */
  const NoFilters: Filters := Filters("", "", "", "", "", "", "")

  // ---------------------------------------------------------------------------
  // Subsequences and `Array.prototype.filter`

  /** `a` is `b` with some elements left out, the rest in their order. */
  predicate IsSubsequence<T(==)>(a: seq<T>, b: seq<T>)
    decreases |b|
  {
    a == [] || (b != [] && ((a[0] == b[0] && IsSubsequence(a[1..], b[1..])) || IsSubsequence(a, b[1..])))
  }

  /** Every sequence is a subsequence of itself. */
  lemma {:induction false} SubsequenceReflexive<T>(a: seq<T>)
    ensures IsSubsequence(a, a)
    decreases |a|
  {
    if a != [] {
      SubsequenceReflexive(a[1..]);
    }
  }

  /** A subsequence of a subsequence is a subsequence. */
  lemma {:induction false} SubsequenceTransitive<T>(a: seq<T>, b: seq<T>, c: seq<T>)
    requires IsSubsequence(a, b) && IsSubsequence(b, c)
    ensures IsSubsequence(a, c)
    decreases |c|
  {
    if a != [] {
      assert b != [] && c != [];
      if b[0] == c[0] && IsSubsequence(b[1..], c[1..]) {
        if a[0] == b[0] && IsSubsequence(a[1..], b[1..]) {
          SubsequenceTransitive(a[1..], b[1..], c[1..]);
        } else {
          SubsequenceTransitive(a, b[1..], c[1..]);
        }
      } else {
        SubsequenceTransitive(a, b, c[1..]);
      }
    }
  }

  /** `xs.filter(p)`: the elements `p` keeps, in their order. */
  function Keep(xs: seq<Record>, p: Record -> bool): (r: seq<Record>)
    ensures IsSubsequence(r, xs)
    ensures forall x :: x in r <==> x in xs && p(x)
    ensures forall x :: multiset(r)[x] == if p(x) then multiset(xs)[x] else 0
  {
    if xs == [] then []
    else
      var rest := Keep(xs[1..], p);
      assert xs == [xs[0]] + xs[1..];
      if p(xs[0]) then
        assert forall x :: x in xs <==> x == xs[0] || x in xs[1..];
        [xs[0]] + rest
      else
        assert IsSubsequence(rest, xs);
        rest
  }

  // ---------------------------------------------------------------------------
  // The four filters

  /** `new Date(record.date) >= new Date(start) && ... <= new Date(end)`: false when any of the three is an Invalid Date. */
  predicate InPeriod(record: Record, start: string, end: string) {
    && record.date.Str?
    && ParseIsoDate(record.date.s).Some? && ParseIsoDate(start).Some? && ParseIsoDate(end).Some?
    && NotAfter(ParseIsoDate(start).value, ParseIsoDate(record.date.s).value)
    && NotAfter(ParseIsoDate(record.date.s).value, ParseIsoDate(end).value)
  }

  /** The category, date and period filters, each applied only when supplied. */
  predicate PassesFieldFilters(record: Record, f: Filters) {
    && (f.category != "" ==> record.category == Str(f.category))
    && (f.date != "" ==> record.date == Str(f.date))
    && (f.startDate != "" && f.endDate != "" ==> InPeriod(record, f.startDate, f.endDate))
  }

  /** The search callback throws: `category` is not a string, or it misses and `memo` is not a string. */
  predicate SearchThrows(record: Record, term: string) {
    || !record.category.Str?
    || (!Includes(ToLower(record.category.s), term) && !record.memo.Str?)
  }

  /** The lower-cased category or memo contains the lower-cased search term. */
  predicate SearchHit(record: Record, term: string) {
    && record.category.Str?
    && (|| Includes(ToLower(record.category.s), term)
        || (record.memo.Str? && Includes(ToLower(record.memo.s), term)))
  }

  /** The search filter: `None` when the callback throws on some record. */
  function Search(records: seq<Record>, term: string): (r: Option<seq<Record>>)
    ensures r.None? <==> exists x :: x in records && SearchThrows(x, term)
    ensures r.Some? ==> IsSubsequence(r.value, records)
    ensures r.Some? ==> forall x :: x in r.value <==> x in records && SearchHit(x, term)
    ensures r.Some? ==> forall x :: multiset(r.value)[x] == if SearchHit(x, term) then multiset(records)[x] else 0
  {
    if records == [] then Some([])
    else if SearchThrows(records[0], term) then None
    else
      match Search(records[1..], term)
      case None => None
      case Some(rest) =>
        assert records == [records[0]] + records[1..];
        assert forall x :: x in records <==> x == records[0] || x in records[1..];
        if SearchHit(records[0], term) then Some([records[0]] + rest)
        else
          assert IsSubsequence(rest, records);
          Some(rest)
  }

  /** Everything a record must satisfy to be returned. */
  predicate Selected(record: Record, f: Filters) {
    && PassesFieldFilters(record, f)
    && (f.search != "" ==> SearchHit(record, ToLower(f.search)))
  }

  /** The category, date and period filters applied in turn: the records passing all three, in stored order. */
  function FieldFiltered(records: seq<Record>, f: Filters): (r: seq<Record>)
    ensures IsSubsequence(r, records)
    ensures forall x :: x in r <==> x in records && PassesFieldFilters(x, f)
    ensures forall x :: multiset(r)[x] == if PassesFieldFilters(x, f) then multiset(records)[x] else 0
  {
    var byCategory := if f.category != "" then Keep(records, (x: Record) => x.category == Str(f.category)) else records;
    var byDate := if f.date != "" then Keep(byCategory, (x: Record) => x.date == Str(f.date)) else byCategory;
    var byPeriod :=
      if f.startDate != "" && f.endDate != "" then Keep(byDate, (x: Record) => InPeriod(x, f.startDate, f.endDate)) else byDate;
    SubsequenceReflexive(records);
    SubsequenceReflexive(byCategory);
    SubsequenceReflexive(byDate);
    SubsequenceTransitive(byDate, byCategory, records);
    SubsequenceTransitive(byPeriod, byDate, records);
    byPeriod
  }

  /**
   * The filters applied in turn to the stored records: `None` when the search
   * callback throws, which makes `getRecords` return [].
   */
  function Filtered(records: seq<Record>, f: Filters): (r: Option<seq<Record>>)
    ensures r.None? <==>
              f.search != "" && exists x :: x in records && PassesFieldFilters(x, f) && SearchThrows(x, ToLower(f.search))
    ensures r.Some? ==> IsSubsequence(r.value, records)
    ensures r.Some? ==> forall x :: x in r.value <==> x in records && Selected(x, f)
    ensures r.Some? ==> forall x :: multiset(r.value)[x] == if Selected(x, f) then multiset(records)[x] else 0
  {
    var byPeriod := FieldFiltered(records, f);
    if f.search == "" then Some(byPeriod)
    else
      match Search(byPeriod, ToLower(f.search))
      case None => None
      case Some(found) =>
        SubsequenceTransitive(found, byPeriod, records);
        Some(found)
  }

  // ---------------------------------------------------------------------------
  // Sorting

  /** `record[key]` for the record's own properties; any other key reads undefined. */
  function FieldOf(record: Record, key: string): JsValue {
    if key == "id" then record.id
    else if key == "category" then record.category
    else if key == "value" then record.value
    else if key == "memo" then record.memo
    else if key == "date" then record.date
    else if key == "createdAt" then record.createdAt
    else if key == "updatedAt" then record.updatedAt
    else Undefined
  }

  /** Values of different kinds are ordered by kind. */
  function KindRank(v: JsValue): nat {
    match v
    case Undefined => 0
    case Null => 1
    case Bool(_) => 2
    case Num(_) => 3
    case Str(_) => 4
    case Obj => 5
  }

  /** Numbers in order, with NaN first. */
  predicate NumberLe(a: Number, b: Number) {
    match (a, b)
    case (NaN, _) => true
    case (_, NaN) => false
    case (Infinity(na), Infinity(nb)) => na || !nb
    case (Infinity(na), Finite(_)) => na
    case (Finite(_), Infinity(nb)) => !nb
    case (Finite(x), Finite(y)) => x <= y
  }

  /**
   * Strings compared character by character on Unicode scalar values. This is
   * `!(a > b)` except where a character above U+FFFF meets one in U+E000..U+FFFF:
   * `>` compares UTF-16 code units, and a surrogate sorts below those.
   */
  predicate StringLe(a: string, b: string) {
    a == [] || (b != [] && (a[0] < b[0] || (a[0] == b[0] && StringLe(a[1..], b[1..]))))
  }

  /**
   * The order the sort keys are compared in: for two finite numbers it is
   * `!(a > b)`; for two strings it is `StringLe`.
   */
  predicate KeyLe(a: JsValue, b: JsValue) {
    || KindRank(a) < KindRank(b)
    || (&& KindRank(a) == KindRank(b)
        && match (a, b)
           case (Bool(x), Bool(y)) => !x || y
           case (Num(x), Num(y)) => NumberLe(x, y)
           case (Str(x), Str(y)) => StringLe(x, y)
           case _ => true)
  }

  /** `StringLe` is total and transitive. */
  lemma {:induction false} StringLeTotalPreorder(a: string, b: string, c: string)
    ensures StringLe(a, b) || StringLe(b, a)
    ensures StringLe(a, b) && StringLe(b, c) ==> StringLe(a, c)
    decreases |a|
  {
    if a != [] && b != [] && c != [] {
      StringLeTotalPreorder(a[1..], b[1..], c[1..]);
    } else if a != [] && b != [] {
      StringLeTotalPreorder(a[1..], b[1..], b[1..]);
    }
  }

  /** `KeyLe` is a total preorder, so a sort by it is well defined up to ties. */
  lemma KeyLeTotalPreorder(a: JsValue, b: JsValue, c: JsValue)
    ensures KeyLe(a, a)
    ensures KeyLe(a, b) || KeyLe(b, a)
    ensures KeyLe(a, b) && KeyLe(b, c) ==> KeyLe(a, c)
  {
    if a.Str? {
      StringLeTotalPreorder(a.s, a.s, a.s);
      if b.Str? {
        StringLeTotalPreorder(a.s, b.s, b.s);
        if c.Str? {
          StringLeTotalPreorder(a.s, b.s, c.s);
        }
      }
    }
  }

  /** `a` may come before `b`: the comparator does not return 1 for `(a, b)`. */
  predicate Before(a: Record, b: Record, key: string, descending: bool) {
    if descending then KeyLe(FieldOf(b, key), FieldOf(a, key))
    else KeyLe(FieldOf(a, key), FieldOf(b, key))
  }

  /** Sorted for the comparator: every earlier record may come before every later one. */
  predicate SortedBy(records: seq<Record>, key: string, descending: bool) {
    forall i, j :: 0 <= i < j < |records| ==> Before(records[i], records[j], key, descending)
  }

  /** `Before` inherits totality and transitivity from `KeyLe`. */
  lemma BeforeTotalPreorder(a: Record, b: Record, c: Record, key: string, descending: bool)
    ensures Before(a, b, key, descending) || Before(b, a, key, descending)
    ensures Before(a, b, key, descending) && Before(b, c, key, descending) ==> Before(a, c, key, descending)
  {
    KeyLeTotalPreorder(FieldOf(a, key), FieldOf(b, key), FieldOf(c, key));
    KeyLeTotalPreorder(FieldOf(c, key), FieldOf(b, key), FieldOf(a, key));
  }

  /** A record that may precede every record of a sorted list, put in front of it, keeps it sorted. */
  lemma ConsSorted(head: Record, rest: seq<Record>, key: string, descending: bool)
    requires SortedBy(rest, key, descending)
    requires forall y :: y in rest ==> Before(head, y, key, descending)
    ensures SortedBy([head] + rest, key, descending)
  {
    var r := [head] + rest;
    forall i, j | 0 <= i < j < |r| ensures Before(r[i], r[j], key, descending) {
      if i == 0 {
        assert r[j] == rest[j - 1];
      } else {
        assert r[i] == rest[i - 1] && r[j] == rest[j - 1];
      }
    }
  }

  /** `x` placed in a sorted list after every record it may not precede. */
  function Insert(x: Record, records: seq<Record>, key: string, descending: bool): (r: seq<Record>)
    requires SortedBy(records, key, descending)
    ensures multiset(r) == multiset(records) + multiset{x}
    ensures SortedBy(r, key, descending)
  {
    if records == [] then [x]
    else if Before(x, records[0], key, descending) then
      InsertAtFront(x, records, key, descending);
      [x] + records
    else
      var head := records[0];
      var tail := records[1..];
      assert records == [head] + tail;
      var rest := Insert(x, tail, key, descending);
      InsertBehind(x, head, tail, rest, key, descending);
      [head] + rest
  }

  /** A record that may precede the head of a sorted list may precede all of it. */
  lemma InsertAtFront(x: Record, records: seq<Record>, key: string, descending: bool)
    requires records != [] && SortedBy(records, key, descending)
    requires Before(x, records[0], key, descending)
    ensures SortedBy([x] + records, key, descending)
  {
    forall y | y in records ensures Before(x, y, key, descending) {
      var j :| 0 <= j < |records| && records[j] == y;
      if j > 0 {
        BeforeTotalPreorder(x, records[0], y, key, descending);
      }
    }
    ConsSorted(x, records, key, descending);
  }

  /** The head of a sorted list stays in front when `x`, which it may precede, is inserted behind it. */
  lemma InsertBehind(x: Record, head: Record, tail: seq<Record>, rest: seq<Record>, key: string, descending: bool)
    requires SortedBy([head] + tail, key, descending) && SortedBy(rest, key, descending)
    requires !Before(x, head, key, descending)
    requires multiset(rest) == multiset(tail) + multiset{x}
    ensures SortedBy([head] + rest, key, descending)
  {
    BeforeTotalPreorder(x, head, head, key, descending);
    forall y | y in rest ensures Before(head, y, key, descending) {
      assert y in multiset(rest);
      if y != x {
        assert y in tail;
        var j :| 0 <= j < |tail| && tail[j] == y;
        var whole := [head] + tail;
        assert whole[0] == head && whole[j + 1] == y;
        assert Before(whole[0], whole[j + 1], key, descending);
      } else {
        assert Before(x, head, key, descending) || Before(head, x, key, descending);
      }
    }
    ConsSorted(head, rest, key, descending);
  }

  /** `records.sort(comparator)`: a permutation of the records, sorted for the comparator. */
  function Sort(records: seq<Record>, key: string, descending: bool): (r: seq<Record>)
    ensures multiset(r) == multiset(records)
    ensures SortedBy(r, key, descending)
  {
    if records == [] then []
    else
      assert records == [records[0]] + records[1..];
      Insert(records[0], Sort(records[1..], key, descending), key, descending)
  }

  // ---------------------------------------------------------------------------
  // getRecords

  /** Whether `[...data.data.records]` succeeds: there is a data section whose records are an array. */
  predicate HasRecordList(doc: Document) {
    doc.data.Some? && doc.data.value.records.List?
  }

  /** The stored records, or [] when there is no record array. */
  function RecordsOf(doc: Document): seq<Record> {
    if HasRecordList(doc) then doc.data.value.records.items else []
  }

  /**
   * `getRecords(filters)` on a document: the stored records that pass every
   * supplied filter. Without `sortBy` they keep their stored order; with it they
   * are a sorted permutation of those records. Anything that throws gives [].
   */
  function Query(doc: Document, f: Filters): (r: seq<Record>)
    ensures !HasRecordList(doc) ==> r == []
    ensures HasRecordList(doc) && Filtered(RecordsOf(doc), f).None? ==> r == []
    ensures forall x :: x in r ==> x in RecordsOf(doc) && Selected(x, f)
    ensures HasRecordList(doc) && Filtered(RecordsOf(doc), f).Some? ==>
              forall x :: x in RecordsOf(doc) && Selected(x, f) ==> x in r
    ensures HasRecordList(doc) && Filtered(RecordsOf(doc), f).Some? ==>
              forall x :: multiset(r)[x] == if Selected(x, f) then multiset(RecordsOf(doc))[x] else 0
    ensures f.sortBy == "" ==> IsSubsequence(r, RecordsOf(doc))
    ensures f.sortBy != "" ==> SortedBy(r, f.sortBy, f.sortOrder == "desc")
  {
    if !HasRecordList(doc) then []
    else
      match Filtered(RecordsOf(doc), f)
      case None => []
      case Some(selected) =>
        if f.sortBy == "" then selected
        else
          var sorted := Sort(selected, f.sortBy, f.sortOrder == "desc");
          assert forall x :: x in sorted <==> x in multiset(selected);
          sorted
  }

  /** With `sortBy`, the result is a rearrangement of the filtered records, each kept as often as it occurs there. */
  lemma SortedQueryIsPermutation(doc: Document, f: Filters)
    requires f.sortBy != "" && HasRecordList(doc) && Filtered(RecordsOf(doc), f).Some?
    ensures multiset(Query(doc, f)) == multiset(Filtered(RecordsOf(doc), f).value)
  {
  }

  /** With no filter at all, every stored record comes back, in order. */
  lemma UnfilteredQueryReturnsAll(doc: Document)
    requires HasRecordList(doc)
    ensures Query(doc, NoFilters) == RecordsOf(doc)
  {
    var records := RecordsOf(doc);
    KeepAll(records);
  }

  /** The filtering that keeps every element returns the list itself. */
  lemma {:induction false} KeepAll(records: seq<Record>)
    ensures Filtered(records, NoFilters) == Some(records)
  {
  }
}
