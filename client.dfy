/**
 * `StrapiClient`: the content-query client. It holds the base URL and the
 * default store slug, given once at construction; every resource method maps
 * its slugs and options to a `FetchOptions` record, and `Fetch` turns such a
 * record into the request URL and the response into the returned envelope or
 * an error.
 */
module StrapiApi {

  import opened Wrappers
  import opened Strings
  import opened Encoding
  import opened Filters
  import opened Query

  /** The response as the client sees it: whether the status was 2xx, and the body if it parses as JSON. */
  datatype HttpResponse<T> = HttpResponse(ok: bool, json: Option<T>)

  /** Why a request failed: a non-2xx status, or a body that is not JSON. */
  datatype FetchError = RequestFailed(message: string) | MalformedBody

  datatype PaginationMeta = PaginationMeta(page: int, pageSize: int, pageCount: int, total: int)

  /** The paginated envelope the backend answers with. */
  datatype StrapiResponse<T> = StrapiResponse(data: seq<T>, meta: PaginationMeta)

  /** The `paginate` argument of the list methods. */
  datatype PageRequest = PageRequest(page: int, pageSize: int)

  /** The `options` argument of the list methods; `filter` is accepted and not used. */
  datatype ListOptions = ListOptions(filter: Option<string>, sort: string)

  /**
   * `new URL(reference, base)` for a base that is an origin, possibly with a
   * path ending in `/`: the reference is appended after a single `/`, which
   * is added only when the base does not already end in one.
   */
  function Resolve(base: string, reference: string): (url: string)
    ensures |base| + |reference| <= |url| <= |base| + |reference| + 1 && |url| > |reference|
    ensures url[..|base|] == base
    ensures url[|url| - |reference|..] == reference
    ensures url[|url| - |reference| - 1] == '/'
    ensures |url| == |base| + |reference| <==> (base != [] && base[|base| - 1] == '/')
  {
    if base != [] && base[|base| - 1] == '/' then base + reference else base + "/" + reference
  }

  /** The paths each resource method populates, and the comma-separated string it sends for them. */
  const ProductPaths := ["SEO.socialImage", "Thumbnail", "Slides", "PRICES", "stores"]
  const ProductPopulate := Join(ProductPaths, ',')
  const EventPaths := ["SEO", "SEO.socialImage", "Tag", "Thumbnail", "Slides", "stores"]
  const EventPopulate := Join(EventPaths, ',')
  const StorePaths := ["Logo", "SEO.socialImage", "Favicon", "URLS", "Cover"]
  const StorePopulate := Join(StorePaths, ',')
  const PagesPaths := ["SEO.socialImage"]
  const PagesPopulate := Join(PagesPaths, ',')
  const PagePaths := ["SEO.socialImage", "store", "albums", "albums.cover", "albums.SEO", "albums.tracks"]
  const PagePopulate := Join(PagePaths, ',')
  const StoresPaths := ["Logo", "SEO", "SEO.socialImage", "Favicon", "URLS"]
  const StoresPopulate := Join(StoresPaths, ',')
  const ArticlePaths := ["SEO.socialImage", "Tags", "cover", "store"]
  const ArticlePopulate := Join(ArticlePaths, ',')
  const AlbumPaths := ["SEO.socialImage", "tracks", "tracks.SEO", "tracks.SEO.socialImage", "tracks.media", "tracks.urls", "cover"]
  const AlbumPopulate := Join(AlbumPaths, ',')

  /** The sort the single-article and album lookups fix: newest first. */
  const NewestFirst := "createdAt:desc"

  /** One `populate[]` entry per path, as given. */
  function PopulateEntries(paths: seq<string>): seq<(string, string)>
  {
    seq(|paths|, i requires 0 <= i < |paths| => ("populate[]", paths[i]))
  }

  /** A path that `trim` and `split(',')` leave whole. */
  predicate FixedPath(p: string)
  {
    p != [] && ',' !in p && !IsWhitespace(p[0]) && !IsWhitespace(p[|p| - 1])
  }

  /** Fixed paths name themselves: trimming an entry changes nothing. */
  lemma FixedPathEntries(paths: seq<string>)
    requires forall i :: 0 <= i < |paths| ==> FixedPath(paths[i])
    ensures PopulatePairs(Some(Paths(paths))) == PopulateEntries(paths)
  {
    var entries := PopulatePairs(Some(Paths(paths)));
    forall i | 0 <= i < |paths| ensures entries[i] == PopulateEntries(paths)[i] {
      TrimUnchanged(paths[i]);
    }
  }

  /** A fixed comma-joined populate string yields exactly its paths as entries, in order. */
  lemma FixedPopulate(paths: seq<string>)
    requires |paths| >= 1
    requires forall i :: 0 <= i < |paths| ==> FixedPath(paths[i])
    ensures PopulatePairs(Some(Joined(Join(paths, ',')))) == PopulateEntries(paths)
  {
    assert FixedPath(paths[0]);
    PopulateStringMatchesArray(paths);
    FixedPathEntries(paths);
  }

  lemma ProductEntries()
    ensures PopulatePairs(Some(Joined(ProductPopulate))) == PopulateEntries(ProductPaths)
  {
    FixedPopulate(ProductPaths);
  }

  lemma EventEntries()
    ensures PopulatePairs(Some(Joined(EventPopulate))) == PopulateEntries(EventPaths)
  {
    FixedPopulate(EventPaths);
  }

  lemma StoreEntries()
    ensures PopulatePairs(Some(Joined(StorePopulate))) == PopulateEntries(StorePaths)
  {
    FixedPopulate(StorePaths);
  }

  lemma PagesEntries()
    ensures PopulatePairs(Some(Joined(PagesPopulate))) == PopulateEntries(PagesPaths)
  {
    FixedPopulate(PagesPaths);
  }

  lemma PageEntries()
    ensures PopulatePairs(Some(Joined(PagePopulate))) == PopulateEntries(PagePaths)
  {
    FixedPopulate(PagePaths);
  }

  lemma StoresEntries()
    ensures PopulatePairs(Some(Joined(StoresPopulate))) == PopulateEntries(StoresPaths)
  {
    FixedPopulate(StoresPaths);
  }

  lemma ArticleEntries()
    ensures PopulatePairs(Some(Joined(ArticlePopulate))) == PopulateEntries(ArticlePaths)
  {
    FixedPopulate(ArticlePaths);
  }

  lemma AlbumEntries()
    ensures PopulatePairs(Some(Joined(AlbumPopulate))) == PopulateEntries(AlbumPaths)
  {
    FixedPopulate(AlbumPaths);
  }

  /** `$eq: store_slug` when the slug may be `undefined`. */
  function OptionalText(s: Option<string>): Scalar
  {
    if s.Some? then Str(s.value) else Undefined
  }

  /** `{slug: {$eq: slug}, relation: {slug: {$eq: store}}}`: the own slug first, then the store's. */
  lemma SlugThenStore(relation: string, slug: string, store: string)
    ensures FilterLeaves(Some([FieldEquals("slug", Str(slug)), RelationEquals(relation, "slug", Str(store))]))
         == [Leaf(["slug", "$eq"], slug), Leaf([relation, "slug", "$eq"], store)]
  {
    FieldEqualsLeaves("slug", Str(slug));
    RelationEqualsLeaves(relation, "slug", Str(store));
    TwoFieldLeaves(FieldEquals("slug", Str(slug)), RelationEquals(relation, "slug", Str(store)),
      [Leaf(["slug", "$eq"], slug)], [Leaf([relation, "slug", "$eq"], store)]);
  }

  /** `{relation: {slug: {$eq: store}}, slug: {$eq: slug}}`: the store's slug first, then the own one. */
  lemma StoreThenSlug(relation: string, store: string, slug: string)
    ensures FilterLeaves(Some([RelationEquals(relation, "slug", Str(store)), FieldEquals("slug", Str(slug))]))
         == [Leaf([relation, "slug", "$eq"], store), Leaf(["slug", "$eq"], slug)]
  {
    RelationEqualsLeaves(relation, "slug", Str(store));
    FieldEqualsLeaves("slug", Str(slug));
    TwoFieldLeaves(RelationEquals(relation, "slug", Str(store)), FieldEquals("slug", Str(slug)),
      [Leaf([relation, "slug", "$eq"], store)], [Leaf(["slug", "$eq"], slug)]);
  }

  /** `{Active: {$eq: true}, store: {slug: {$eq: store}}}`. */
  lemma ActiveThenStore(store: string)
    ensures FilterLeaves(Some([FieldEquals("Active", Flag(true)), RelationEquals("store", "slug", Str(store))]))
         == [Leaf(["Active", "$eq"], "true"), Leaf(["store", "slug", "$eq"], store)]
  {
    FieldEqualsLeaves("Active", Flag(true));
    RelationEqualsLeaves("store", "slug", Str(store));
    TwoFieldLeaves(FieldEquals("Active", Flag(true)), RelationEquals("store", "slug", Str(store)),
      [Leaf(["Active", "$eq"], "true")], [Leaf(["store", "slug", "$eq"], store)]);
  }

  /** `{relation: {slug: {$eq: store}}}` alone. */
  lemma StoreOnly(relation: string, store: Scalar)
    ensures FilterLeaves(Some([RelationEquals(relation, "slug", store)])) == ScalarLeaves([relation, "slug", "$eq"], store)
  {
    RelationEqualsLeaves(relation, "slug", store);
  }

  /** The client, with the configuration it is constructed from. */
  datatype StrapiClient = StrapiClient(baseUrl: string, storeSlug: string) {

    /** `store_slug || this.storeSlug`: a given, non-empty slug, else the configured one. */
    function ExplicitOrDefault(store: Option<string>): string
    {
      if store.Some? && store.value != "" then store.value else storeSlug
    }

    /** `store_slug = this.storeSlug`: the argument whenever it is passed, even if empty. */
    function ArgumentOrDefault(store: Option<string>): string
    {
      if store.Some? then store.value else storeSlug
    }

    /**
     * `buildUrl`: appends the `populate[]` entries one by one, then the
     * pagination fields and the sort that are given, to a parameter list, and
     * resolves `api/{contentType}?{filters}&{params}` against the base URL.
     */
    method BuildUrl(o: FetchOptions) returns (url: string)
      ensures url == Resolve(baseUrl, Target(o))
    {
      var filterString := FilterString(o.filters);
      var params: seq<(string, string)> := [];
      if PopulateGiven(o.populate) {
        var fields := match o.populate.value
          case Paths(paths) => paths
          case Joined(list) => Split(list, ',');
        assert fields == PopulateFields(o.populate);
        var i := 0;
        while i < |fields|
          invariant 0 <= i <= |fields|
          invariant |params| == i
          invariant forall k :: 0 <= k < i ==> params[k] == ("populate[]", Trim(fields[k]))
        {
          params := params + [("populate[]", Trim(fields[i]))];
          i := i + 1;
        }
      }
      assert params == PopulatePairs(o.populate);
      ghost var populated := params;
      var window := Window(o.paginate);
      if NumberGiven(window.limit) {
        params := params + [(LimitKey, IntToDecimal(window.limit.value))];
      }
      assert params == populated + NumberParam(LimitKey, window.limit);
      ghost var limited := params;
      if NumberGiven(window.page) {
        params := params + [(PageKey, IntToDecimal(window.page.value))];
      }
      assert params == limited + NumberParam(PageKey, window.page);
      ghost var paged := params;
      if NumberGiven(window.pageSize) {
        params := params + [(PageSizeKey, IntToDecimal(window.pageSize.value))];
      }
      assert params == paged + NumberParam(PageSizeKey, window.pageSize);
      ghost var sized := params;
      if SortGiven(o.sort) {
        params := params + [("sort", o.sort.value)];
      }
      assert params == sized + SortPairs(o.sort);
      ParamsInAppendOrder(o);
      var query := filterString + "&" + FormSerialize(params);
      assert query == QueryString(o);
      url := Resolve(baseUrl, "api/" + o.contentType + "?" + query);
    }

    /**
     * `fetch`: requests the URL `BuildUrl` gives and settles the response. A
     * non-2xx status always fails with `Failed to fetch {contentType}`; a 2xx
     * status returns the decoded envelope unchanged; nothing partial is returned.
     */
    method Fetch<T>(o: FetchOptions, response: HttpResponse<StrapiResponse<T>>)
      returns (url: string, result: Result<StrapiResponse<T>, FetchError>)
      ensures url == Resolve(baseUrl, Target(o))
      ensures !response.ok ==> result == Failure(RequestFailed("Failed to fetch " + o.contentType))
      ensures response.ok && response.json.Some? ==> result == Success(response.json.value)
      ensures response.ok && response.json.None? ==> result == Failure(MalformedBody)
    {
      url := BuildUrl(o);
      if !response.ok {
        return url, Failure(RequestFailed("Failed to fetch " + o.contentType));
      }
      match response.json
      case None => result := Failure(MalformedBody);
      case Some(body) => result := Success(body);
    }

    function GetProduct(productSlug: string, store: Option<string>): (r: FetchOptions)
      ensures r.contentType == "products" && r.paginate.None? && r.sort.None?
      ensures FilterLeaves(r.filters)
           == [Leaf(["stores", "slug", "$eq"], ExplicitOrDefault(store)), Leaf(["slug", "$eq"], productSlug)]
      ensures ParamPairs(r) == PopulateEntries(ProductPaths)
    {
      var stores := RelationEquals("stores", "slug", Str(ExplicitOrDefault(store)));
      var slug := FieldEquals("slug", Str(productSlug));
      var r := FetchOptions("products", Some([stores, slug]), Some(Joined(ProductPopulate)), None, None);
      StoreThenSlug("stores", ExplicitOrDefault(store), productSlug);
      ProductEntries();
      PopulateOnly(r, PopulateEntries(ProductPaths));
      r
    }

    /** The list of products: no store default at all; an omitted store leaves its filter undefined, so it is dropped. */
    function GetProducts(paging: PageRequest, options: ListOptions, store: Option<string>): (r: FetchOptions)
      ensures r.contentType == "products"
      ensures FilterLeaves(r.filters) == if store.Some? then [Leaf(["stores", "slug", "$eq"], store.value)] else []
      ensures ParamPairs(r)
           == PopulateEntries(ProductPaths) + NumberParam(PageKey, Some(paging.page))
              + NumberParam(PageSizeKey, Some(paging.pageSize)) + SortPairs(Some(options.sort))
    {
      var stores := RelationEquals("stores", "slug", OptionalText(store));
      var r := FetchOptions("products", Some([stores]), Some(Joined(ProductPopulate)),
                 Some(Paginate(None, Some(paging.page), Some(paging.pageSize))), Some(options.sort));
      StoreOnly("stores", OptionalText(store));
      ProductEntries();
      PagedParams(r, PopulateEntries(ProductPaths), paging.page, paging.pageSize, options.sort);
      r
    }

    function GetEvents(store: Option<string>): (r: FetchOptions)
      ensures r.contentType == "events" && r.paginate.None? && r.sort.None?
      ensures FilterLeaves(r.filters) == [Leaf(["stores", "slug", "$eq"], ArgumentOrDefault(store))]
      ensures ParamPairs(r) == PopulateEntries(EventPaths)
    {
      var stores := RelationEquals("stores", "slug", Str(ArgumentOrDefault(store)));
      var r := FetchOptions("events", Some([stores]), Some(Joined(EventPopulate)), None, None);
      StoreOnly("stores", Str(ArgumentOrDefault(store)));
      EventEntries();
      PopulateOnly(r, PopulateEntries(EventPaths));
      r
    }

    function GetEventBySlug(eventSlug: string, store: Option<string>): (r: FetchOptions)
      ensures r.contentType == "events" && r.paginate.None? && r.sort.None?
      ensures FilterLeaves(r.filters)
           == [Leaf(["stores", "slug", "$eq"], ArgumentOrDefault(store)), Leaf(["slug", "$eq"], eventSlug)]
      ensures ParamPairs(r) == PopulateEntries(EventPaths)
    {
      var stores := RelationEquals("stores", "slug", Str(ArgumentOrDefault(store)));
      var slug := FieldEquals("slug", Str(eventSlug));
      var r := FetchOptions("events", Some([stores, slug]), Some(Joined(EventPopulate)), None, None);
      StoreThenSlug("stores", ArgumentOrDefault(store), eventSlug);
      EventEntries();
      PopulateOnly(r, PopulateEntries(EventPaths));
      r
    }

    /** A single store by slug; the slug is a bare value, so the key is `filters[slug]`. */
    function GetStore(slug: Option<string>): (r: FetchOptions)
      ensures r.contentType == "stores" && r.paginate.None? && r.sort.None?
      ensures FilterLeaves(r.filters) == [Leaf(["slug"], ArgumentOrDefault(slug))]
      ensures ParamPairs(r) == PopulateEntries(StorePaths)
    {
      var field := Field("slug", Value(Str(ArgumentOrDefault(slug))));
      var r := FetchOptions("stores", Some([field]), Some(Joined(StorePopulate)), None, None);
      SingleFieldLeaves([], field);
      assert [] + ["slug"] == ["slug"];
      StoreEntries();
      PopulateOnly(r, PopulateEntries(StorePaths));
      r
    }

    function GetPages(store: Option<string>): (r: FetchOptions)
      ensures r.contentType == "pages" && r.paginate.None? && r.sort.None?
      ensures FilterLeaves(r.filters)
           == [Leaf(["Active", "$eq"], "true"), Leaf(["store", "slug", "$eq"], ArgumentOrDefault(store))]
      ensures ParamPairs(r) == PopulateEntries(PagesPaths)
    {
      var active := FieldEquals("Active", Flag(true));
      var stores := RelationEquals("store", "slug", Str(ArgumentOrDefault(store)));
      var r := FetchOptions("pages", Some([active, stores]), Some(Joined(PagesPopulate)), None, None);
      ActiveThenStore(ArgumentOrDefault(store));
      PagesEntries();
      PopulateOnly(r, PopulateEntries(PagesPaths));
      r
    }

    /** A page by slug: always page 1 of size 10, even though one page is expected. */
    function GetPage(slug: string, store: Option<string>): (r: FetchOptions)
      ensures r.contentType == "pages" && r.sort.None?
      ensures FilterLeaves(r.filters)
           == [Leaf(["store", "slug", "$eq"], ArgumentOrDefault(store)), Leaf(["slug", "$eq"], slug)]
      ensures ParamPairs(r) == PopulateEntries(PagePaths) + [(PageKey, "1"), (PageSizeKey, "10")]
    {
      var stores := RelationEquals("store", "slug", Str(ArgumentOrDefault(store)));
      var own := FieldEquals("slug", Str(slug));
      var r := FetchOptions("pages", Some([stores, own]), Some(Joined(PagePopulate)), Some(Paginate(None, Some(1), Some(10))), None);
      StoreThenSlug("store", ArgumentOrDefault(store), slug);
      PageEntries();
      PageWindow(1, 10);
      SmallDecimals();
      ParamLayout(r, PopulateEntries(PagePaths), [(PageKey, "1"), (PageSizeKey, "10")], []);
      r
    }

    /** The list of active stores, paginated and sorted as asked; the search keyword is not used. */
    function GetStores(paging: PageRequest, options: ListOptions): (r: FetchOptions)
      ensures r.contentType == "stores"
      ensures FilterLeaves(r.filters) == [Leaf(["active", "$eq"], "true")]
      ensures ParamPairs(r)
           == PopulateEntries(StoresPaths) + NumberParam(PageKey, Some(paging.page))
              + NumberParam(PageSizeKey, Some(paging.pageSize)) + SortPairs(Some(options.sort))
    {
      var active := FieldEquals("active", Flag(true));
      var r := FetchOptions("stores", Some([active]), Some(Joined(StoresPopulate)),
                 Some(Paginate(None, Some(paging.page), Some(paging.pageSize))), Some(options.sort));
      FieldEqualsLeaves("active", Flag(true));
      StoresEntries();
      PagedParams(r, PopulateEntries(StoresPaths), paging.page, paging.pageSize, options.sort);
      r
    }

    function GetPosts(paging: PageRequest, options: ListOptions, store: Option<string>): (r: FetchOptions)
      ensures r.contentType == "articles"
      ensures FilterLeaves(r.filters) == [Leaf(["store", "slug", "$eq"], ExplicitOrDefault(store))]
      ensures ParamPairs(r)
           == PopulateEntries(ArticlePaths) + NumberParam(PageKey, Some(paging.page))
              + NumberParam(PageSizeKey, Some(paging.pageSize)) + SortPairs(Some(options.sort))
    {
      var stores := RelationEquals("store", "slug", Str(ExplicitOrDefault(store)));
      var r := FetchOptions("articles", Some([stores]), Some(Joined(ArticlePopulate)),
                 Some(Paginate(None, Some(paging.page), Some(paging.pageSize))), Some(options.sort));
      StoreOnly("store", Str(ExplicitOrDefault(store)));
      ArticleEntries();
      PagedParams(r, PopulateEntries(ArticlePaths), paging.page, paging.pageSize, options.sort);
      r
    }

    /** A single article, newest first. */
    function GetPost(articleSlug: string, store: Option<string>): (r: FetchOptions)
      ensures r.contentType == "articles" && r.paginate.None?
      ensures FilterLeaves(r.filters)
           == [Leaf(["slug", "$eq"], articleSlug), Leaf(["store", "slug", "$eq"], ExplicitOrDefault(store))]
      ensures ParamPairs(r) == PopulateEntries(ArticlePaths) + [("sort", NewestFirst)]
    {
      var own := FieldEquals("slug", Str(articleSlug));
      var stores := RelationEquals("store", "slug", Str(ExplicitOrDefault(store)));
      var r := FetchOptions("articles", Some([own, stores]), Some(Joined(ArticlePopulate)), None, Some(NewestFirst));
      SlugThenStore("store", articleSlug, ExplicitOrDefault(store));
      ArticleEntries();
      ParamLayout(r, PopulateEntries(ArticlePaths), [], [("sort", NewestFirst)]);
      r
    }

    /** An album with its tracks, newest first. */
    function GetAlbum(albumSlug: string, store: Option<string>): (r: FetchOptions)
      ensures r.contentType == "albums" && r.paginate.None?
      ensures FilterLeaves(r.filters)
           == [Leaf(["slug", "$eq"], albumSlug), Leaf(["store", "slug", "$eq"], ExplicitOrDefault(store))]
      ensures ParamPairs(r) == PopulateEntries(AlbumPaths) + [("sort", NewestFirst)]
    {
      var own := FieldEquals("slug", Str(albumSlug));
      var stores := RelationEquals("store", "slug", Str(ExplicitOrDefault(store)));
      var r := FetchOptions("albums", Some([own, stores]), Some(Joined(AlbumPopulate)), None, Some(NewestFirst));
      SlugThenStore("store", albumSlug, ExplicitOrDefault(store));
      AlbumEntries();
      ParamLayout(r, PopulateEntries(AlbumPaths), [], [("sort", NewestFirst)]);
      r
    }
  }

  /**
   * The two store-slug rules agree except on an explicitly empty slug: `||`
   * falls back to the configured store, a default parameter keeps the `""`.
   */
  lemma StoreScopeRules(c: StrapiClient, store: Option<string>)
    ensures store.Some? && store.value != "" ==> c.ExplicitOrDefault(store) == store.value == c.ArgumentOrDefault(store)
    ensures store.None? ==> c.ExplicitOrDefault(store) == c.storeSlug == c.ArgumentOrDefault(store)
    ensures c.ExplicitOrDefault(Some("")) == c.storeSlug && c.ArgumentOrDefault(Some("")) == ""
  {
  }

  /** `getStore` sends its slug as the shorthand key `filters[slug]`, not as `filters[slug][$eq]`. */
  lemma StoreLookupFilter(c: StrapiClient, slug: Option<string>)
    ensures FilterString(c.GetStore(slug).filters) == "filters[slug]=" + EncodeValue(c.ArgumentOrDefault(slug))
  {
    SingleLeafString(c.GetStore(slug).filters, ["slug"], c.ArgumentOrDefault(slug));
    SlugKey();
  }

  /** The written key of the single leaf at `slug`, with its `=`. */
  lemma SlugKey()
    ensures FilterKey(["slug"]) + "=" == "filters[slug]="
  {
    FilterKeyOne("slug");
  }

  /**
   * Without a store slug, `getProducts` sends no filter at all: the filter
   * string is empty and the query starts with the separating `&`.
   */
  lemma UnscopedProductsQuery(c: StrapiClient, paging: PageRequest, options: ListOptions)
    ensures FilterString(c.GetProducts(paging, options, None).filters) == ""
    ensures QueryString(c.GetProducts(paging, options, None)) == "&" + FormSerialize(ParamPairs(c.GetProducts(paging, options, None)))
  {
    NoFilterQuery(c.GetProducts(paging, options, None));
  }

  /** The `filter` keyword of the list methods changes nothing in the request. */
  lemma ListKeywordIgnored(c: StrapiClient, paging: PageRequest, options: ListOptions, keyword: Option<string>, store: Option<string>)
    ensures c.GetStores(paging, options.(filter := keyword)) == c.GetStores(paging, options)
    ensures c.GetPosts(paging, options.(filter := keyword), store) == c.GetPosts(paging, options, store)
    ensures c.GetProducts(paging, options.(filter := keyword), store) == c.GetProducts(paging, options, store)
  {
  }

  /** Paths made of form-safe characters reach the wire as `populate%5B%5D=path`. */
  lemma {:induction false} EntriesOnTheWire(paths: seq<string>)
    requires forall i, j :: 0 <= i < |paths| && 0 <= j < |paths[i]| ==> FormSafe(paths[i][j])
    ensures FormPairs(PopulateEntries(paths)) == seq(|paths|, i requires 0 <= i < |paths| => ("populate%5B%5D", paths[i]))
  {
    var entries := PopulateEntries(paths);
    var wire := FormPairs(entries);
    forall i | 0 <= i < |paths| ensures wire[i] == ("populate%5B%5D", paths[i]) {
      EntryOnTheWire(entries[i], paths[i]);
    }
  }

  /** One `populate[]` entry of a form-safe path, as written by `URLSearchParams`. */
  lemma EntryOnTheWire(entry: (string, string), path: string)
    requires entry == ("populate[]", path)
    requires forall j :: 0 <= j < |path| ==> FormSafe(path[j])
    ensures (FormEncode(entry.0), FormEncode(entry.1)) == ("populate%5B%5D", path)
  {
    PopulateKeyOnTheWire();
    FormEncodeUnchanged(path);
  }

  /** A bracketed parameter name reaches the wire with its brackets percent-encoded. */
  lemma BracketedKeyOnTheWire(name: string, sub: string, key: string, wire: string)
    requires forall i :: 0 <= i < |name| ==> FormSafe(name[i])
    requires forall i :: 0 <= i < |sub| ==> FormSafe(sub[i])
    requires key == name + "[" + sub + "]" && wire == name + "%5B" + sub + "%5D"
    ensures FormEncode(key) == wire
  {
    FormEncodeBracketed(name, sub);
  }

  lemma PopulateKeyOnTheWire()
    ensures FormEncode("populate[]") == "populate%5B%5D"
  {
    BracketedKeyOnTheWire("populate", "", "populate[]", "populate%5B%5D");
  }

  lemma PageKeyOnTheWire()
    ensures FormEncode(PageKey) == "pagination%5Bpage%5D"
  {
    BracketedKeyOnTheWire("pagination", "page", PageKey, "pagination%5Bpage%5D");
  }
}
