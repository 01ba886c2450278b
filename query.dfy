/**
 * The request record (`FetchOptions`) and the parameters `buildUrl` derives
 * from it: `populate[]` entries, then `pagination[limit]`, `pagination[page]`,
 * `pagination[pageSize]`, then `sort`, serialized by `URLSearchParams` and
 * placed after the filter string.
 */
module Query {

  import opened Wrappers
  import opened Strings
  import opened Encoding
  import opened Filters

  /** `populate`: an array of relation paths, or one string of comma-separated paths. */
  datatype Populate = Paths(paths: seq<string>) | Joined(list: string)

  /** `paginate`: each field may be absent. */
  datatype Paginate = Paginate(limit: Option<int>, page: Option<int>, pageSize: Option<int>)

  /** What a resource method asks the shared `fetch` for. */
  datatype FetchOptions = FetchOptions(
    contentType: string,
    filters: Option<seq<Field>>,
    populate: Option<Populate>,
    paginate: Option<Paginate>,
    sort: Option<string>)

  /** `if (populate)`: an array is always truthy, a string unless it is empty. */
  predicate PopulateGiven(p: Option<Populate>)
  {
    p.Some? && p.value != Joined("")
  }

  /** The fields the `forEach` visits: the array itself, or the string split at commas. */
  function PopulateFields(p: Option<Populate>): seq<string>
  {
    if !PopulateGiven(p) then []
    else
      match p.value
      case Paths(paths) => paths
      case Joined(list) => Split(list, ',')
  }

  /** One `populate[]` entry per field, trimmed, in field order. */
  function PopulatePairs(p: Option<Populate>): seq<(string, string)>
  {
    var fields := PopulateFields(p);
    seq(|fields|, i requires 0 <= i < |fields| => ("populate[]", Trim(fields[i])))
  }

  /** `if (paginate?.x)` on a number: present and not zero. */
  predicate NumberGiven(n: Option<int>)
  {
    n.Some? && n.value != 0
  }

  function NumberParam(key: string, n: Option<int>): seq<(string, string)>
  {
    if NumberGiven(n) then [(key, IntToDecimal(n.value))] else []
  }

  const LimitKey := "pagination[limit]"
  const PageKey := "pagination[page]"
  const PageSizeKey := "pagination[pageSize]"

  function PaginationPairs(p: Option<Paginate>): seq<(string, string)>
  {
    if p.None? then []
    else NumberParam(LimitKey, p.value.limit) + NumberParam(PageKey, p.value.page) + NumberParam(PageSizeKey, p.value.pageSize)
  }

  /** `if (sort)`: present and not empty. */
  predicate SortGiven(sort: Option<string>)
  {
    sort.Some? && sort.value != ""
  }

  function SortPairs(sort: Option<string>): seq<(string, string)>
  {
    if SortGiven(sort) then [("sort", sort.value)] else []
  }

  /** Everything `buildUrl` appends to its `URLSearchParams`, in append order. */
  function ParamPairs(o: FetchOptions): seq<(string, string)>
  {
    PopulatePairs(o.populate) + PaginationPairs(o.paginate) + SortPairs(o.sort)
  }

  /** The query: the filter string, `&`, then the serialized parameters. */
  function QueryString(o: FetchOptions): string
  {
    FilterString(o.filters) + "&" + FormSerialize(ParamPairs(o))
  }

  /** The reference `buildUrl` resolves against the base URL. */
  function Target(o: FetchOptions): string
  {
    "api/" + o.contentType + "?" + QueryString(o)
  }

  /**
   * A comma-joined string of paths and the array of the same paths give the
   * same `populate[]` entries, as long as no path holds a comma and the array
   * is not the single empty path (whose joined form, `""`, is falsy).
   */
  lemma PopulateStringMatchesArray(paths: seq<string>)
    requires paths != [""]
    requires forall i :: 0 <= i < |paths| ==> ',' !in paths[i]
    ensures PopulatePairs(Some(Joined(Join(paths, ',')))) == PopulatePairs(Some(Paths(paths)))
  {
    var joined, listed := Some(Joined(Join(paths, ','))), Some(Paths(paths));
    ListedFields(paths);
    if paths == [] {
      assert Join(paths, ',') == "";
      assert PopulateFields(joined) == [];
    } else {
      JoinNotEmpty(paths, ',');
      SplitJoin(paths, ',');
      JoinedFields(Join(paths, ','));
    }
    SameFieldsSamePairs(joined, listed);
  }

  /** A non-empty string is visited as its comma-separated pieces. */
  lemma JoinedFields(list: string)
    requires list != ""
    ensures PopulateFields(Some(Joined(list))) == Split(list, ',')
  {
  }

  /** An array is visited as it is, even when empty. */
  lemma ListedFields(paths: seq<string>)
    ensures PopulateFields(Some(Paths(paths))) == paths
  {
  }

  /** The entries depend only on the fields visited. */
  lemma SameFieldsSamePairs(p: Option<Populate>, q: Option<Populate>)
    requires PopulateFields(p) == PopulateFields(q)
    ensures PopulatePairs(p) == PopulatePairs(q)
  {
  }

  /** The one case where the two forms differ: `""` requests nothing, `[""]` one empty entry. */
  lemma PopulateEmptyStringEdge()
    ensures PopulatePairs(Some(Joined(""))) == []
    ensures PopulatePairs(Some(Paths([""]))) == [("populate[]", "")]
  {
    assert Trim("") == "";
  }

  /** The position of a pagination key in the fixed order limit, page, pageSize; 3 for any other key. */
  function PaginationRank(key: string): nat
  {
    if key == LimitKey then 0 else if key == PageKey then 1 else if key == PageSizeKey then 2 else 3
  }

  /** The pagination field at a rank. */
  function PaginationField(p: Paginate, rank: nat): Option<int>
    requires rank < 3
  {
    if rank == 0 then p.limit else if rank == 1 then p.page else p.pageSize
  }

  function GivenCount(p: Option<Paginate>): nat
  {
    if p.None? then 0
    else
      (if NumberGiven(p.value.limit) then 1 else 0)
      + (if NumberGiven(p.value.page) then 1 else 0)
      + (if NumberGiven(p.value.pageSize) then 1 else 0)
  }

  lemma NumberParamFacts(key: string, rank: nat, p: Paginate)
    requires rank < 3 && PaginationRank(key) == rank
    ensures var np := NumberParam(key, PaginationField(p, rank));
      && |np| == (if NumberGiven(PaginationField(p, rank)) then 1 else 0)
      && forall i :: 0 <= i < |np| ==>
           && np[i].0 == key
           && NumberGiven(PaginationField(p, rank))
           && ParseDecimal(np[i].1) == PaginationField(p, rank)
  {
    var n := PaginationField(p, rank);
    if n.Some? { DecimalRoundTrip(n.value); }
  }

  /**
   * The pagination parameters: one per field that is present and not zero,
   * in the order limit, page, pageSize, each holding the decimal text of its
   * field's value.
   */
  lemma PaginationParams(p: Option<Paginate>)
    ensures var pp := PaginationPairs(p);
      && |pp| == GivenCount(p)
      && (forall i, j :: 0 <= i < j < |pp| ==> PaginationRank(pp[i].0) < PaginationRank(pp[j].0))
      && forall i :: 0 <= i < |pp| ==>
           && p.Some?
           && PaginationRank(pp[i].0) < 3
           && NumberGiven(PaginationField(p.value, PaginationRank(pp[i].0)))
           && ParseDecimal(pp[i].1) == PaginationField(p.value, PaginationRank(pp[i].0))
  {
    if p.Some? {
      var q := p.value;
      var a := NumberParam(LimitKey, q.limit);
      var b := NumberParam(PageKey, q.page);
      var c := NumberParam(PageSizeKey, q.pageSize);
      NumberParamFacts(LimitKey, 0, q);
      NumberParamFacts(PageKey, 1, q);
      NumberParamFacts(PageSizeKey, 2, q);
      var pp := a + b + c;
      assert PaginationPairs(p) == pp;
      assert forall i :: 0 <= i < |pp| ==>
        pp[i] == if i < |a| then a[i] else if i < |a| + |b| then b[i - |a|] else c[i - |a| - |b|];
    }
  }

  /** Supplying only `page` emits neither `limit` nor `pageSize`. */
  lemma PageOnly(n: int)
    requires n != 0
    ensures PaginationPairs(Some(Paginate(None, Some(n), None))) == [(PageKey, IntToDecimal(n))]
  {
  }

  /** `paginate?.x`: a missing window reads as one with no fields. */
  function Window(p: Option<Paginate>): Paginate
  {
    if p.Some? then p.value else Paginate(None, None, None)
  }

  /** The parameters in the order `buildUrl` appends them, one group at a time. */
  lemma ParamsInAppendOrder(o: FetchOptions)
    ensures ParamPairs(o)
         == PopulatePairs(o.populate) + NumberParam(LimitKey, Window(o.paginate).limit)
            + NumberParam(PageKey, Window(o.paginate).page) + NumberParam(PageSizeKey, Window(o.paginate).pageSize)
            + SortPairs(o.sort)
  {
    var w := Window(o.paginate);
    var a, b, c, d := NumberParam(LimitKey, w.limit), NumberParam(PageKey, w.page), NumberParam(PageSizeKey, w.pageSize), SortPairs(o.sort);
    assert PaginationPairs(o.paginate) == a + b + c;
    var p := PopulatePairs(o.populate);
    assert p + (a + b + c) + d == p + a + b + c + d;
  }

  /**
   * The populate fields are appended first: every `populate[]` parameter
   * comes before every pagination and sort parameter.
   */
  lemma PopulateComesFirst(o: FetchOptions)
    ensures forall i, j ::
      (0 <= i < |ParamPairs(o)| && 0 <= j < |ParamPairs(o)|
       && ParamPairs(o)[i].0 != "populate[]" && ParamPairs(o)[j].0 == "populate[]")
      ==> j < i
  {
    var pop := PopulatePairs(o.populate);
    var rest := PaginationPairs(o.paginate) + SortPairs(o.sort);
    var all := ParamPairs(o);
    assert all == pop + rest;
    forall k | |pop| <= k < |all| ensures all[k].0 != "populate[]" {
      assert all[k] == rest[k - |pop|];
      assert rest[k - |pop|].0 in {LimitKey, PageKey, PageSizeKey, "sort"};
    }
    forall k | 0 <= k < |pop| ensures all[k].0 == "populate[]" {
      assert all[k] == pop[k];
    }
  }

  /** A request with no defined filter leaf sends an empty filter string, so its query starts with `&`. */
  lemma NoFilterQuery(o: FetchOptions)
    requires FilterLeaves(o.filters) == []
    ensures FilterString(o.filters) == ""
    ensures QueryString(o) == "&" + FormSerialize(ParamPairs(o))
  {
    assert FilterPairs(o.filters) == [];
  }

  /** A page window without a limit: the page entry, if given, then the page-size entry, if given. */
  lemma PageWindow(page: int, pageSize: int)
    ensures PaginationPairs(Some(Paginate(None, Some(page), Some(pageSize))))
         == NumberParam(PageKey, Some(page)) + NumberParam(PageSizeKey, Some(pageSize))
  {
    assert NumberParam(LimitKey, None) == [];
  }

  /** The parameters of a request that populates, then pages, then sorts. */
  lemma ParamLayout(o: FetchOptions, populate: seq<(string, string)>, paging: seq<(string, string)>, sort: seq<(string, string)>)
    requires PopulatePairs(o.populate) == populate
    requires PaginationPairs(o.paginate) == paging
    requires SortPairs(o.sort) == sort
    ensures ParamPairs(o) == populate + paging + sort
  {
  }

  /** The parameters of a request that only populates. */
  lemma PopulateOnly(o: FetchOptions, populate: seq<(string, string)>)
    requires PopulatePairs(o.populate) == populate
    requires o.paginate.None? && o.sort.None?
    ensures ParamPairs(o) == populate
  {
    assert PaginationPairs(o.paginate) == [] && SortPairs(o.sort) == [];
    assert populate + [] + [] == populate;
  }

  /** The parameters of a list request: its fixed fields, the page window, then the caller's sort. */
  lemma PagedParams(o: FetchOptions, populate: seq<(string, string)>, page: int, pageSize: int, sort: string)
    requires PopulatePairs(o.populate) == populate
    requires o.paginate == Some(Paginate(None, Some(page), Some(pageSize))) && o.sort == Some(sort)
    ensures ParamPairs(o)
         == populate + NumberParam(PageKey, Some(page)) + NumberParam(PageSizeKey, Some(pageSize)) + SortPairs(Some(sort))
  {
    PageWindow(page, pageSize);
  }

  /** How many of the pairs have the key `key`. */
  function KeyCount(pairs: seq<(string, string)>, key: string): nat
  {
    if pairs == [] then 0 else (if pairs[0].0 == key then 1 else 0) + KeyCount(pairs[1..], key)
  }

  lemma {:induction false} KeyCountAppend(a: seq<(string, string)>, b: seq<(string, string)>, key: string)
    ensures KeyCount(a + b, key) == KeyCount(a, key) + KeyCount(b, key)
  {
    if a == [] {
      assert a + b == b;
    } else {
      assert (a + b)[0] == a[0] && (a + b)[1..] == a[1..] + b;
      KeyCountAppend(a[1..], b, key);
    }
  }

  lemma {:induction false} KeyCountAbsent(pairs: seq<(string, string)>, key: string)
    requires forall i :: 0 <= i < |pairs| ==> pairs[i].0 != key
    ensures KeyCount(pairs, key) == 0
  {
    if pairs != [] {
      KeyCountAbsent(pairs[1..], key);
    }
  }

  /**
   * `sort` appears exactly once when the request has a non-empty sort, and
   * then as the last parameter, after all pagination parameters; otherwise
   * no `sort` key appears at all.
   */
  lemma SortAppearsOnce(o: FetchOptions)
    ensures KeyCount(ParamPairs(o), "sort") == if SortGiven(o.sort) then 1 else 0
    ensures SortGiven(o.sort) ==> ParamPairs(o)[|ParamPairs(o)| - 1] == ("sort", o.sort.value)
  {
    var pop := PopulatePairs(o.populate);
    var pag := PaginationPairs(o.paginate);
    KeyCountAbsent(pop, "sort");
    KeyCountAbsent(pag, "sort");
    KeyCountAppend(pop, pag, "sort");
    KeyCountAppend(pop + pag, SortPairs(o.sort), "sort");
  }

  /**
   * The query splits at `&` into the filter segments followed by the
   * parameter segments: filters always come before `populate`, pagination
   * and `sort`. Each side contributes one empty piece when it has no pairs.
   */
  lemma QueryLayout(o: FetchOptions)
    requires o.filters.Some? ==> PlainFields(o.filters.value)
    ensures Split(QueryString(o), '&') == QueryPieces(FilterPairs(o.filters)) + QueryPieces(FormPairs(ParamPairs(o)))
  {
    var fp := FilterPairs(o.filters);
    var leaves := FilterLeaves(o.filters);
    FilterLeavesPlain(o.filters);
    forall i | 0 <= i < |fp| ensures '&' !in fp[i].0 && '&' !in fp[i].1 {
      BracketsHaveNoAmpersand(leaves[i].path);
      EncodedValueHasNoAmpersand(leaves[i].text);
    }
    SplitJoinPairs(fp);
    FormPairsHaveNoAmpersand(ParamPairs(o));
    SplitJoinPairs(FormPairs(ParamPairs(o)));
    SplitAround(FilterString(o.filters), FormSerialize(ParamPairs(o)), '&');
  }
}
