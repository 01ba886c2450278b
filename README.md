# Strapi content client, modelled in Dafny

The storefront reads all of its content from a Strapi backend through one
class, `StrapiClient` (`src/api/api.strapi.ts`). The class holds two values
fixed at construction: the API base URL and the default store slug. Every
resource method (`getProduct`, `getPages`, `getAlbum`, ...) builds a
`FetchOptions` record: a content type, a nested filter object, a `populate`
list, an optional page window and an optional sort. `fetch` then turns that
record into a URL with `buildUrl`, requests it, and either throws
`Failed to fetch {contentType}` or returns the decoded JSON envelope.

This project models that client and proves what its URLs look like.

- `wrappers.dfy` — `Option` and `Result`.
- `strings.dfy` — the JavaScript string operations the client relies on:
  `String.prototype.trim` (ECMAScript white space and line terminators),
  `split(',')` with its inverse `join`, and `Number.prototype.toString` on
  integers with a decimal parser as its inverse.
- `encoding.dfy` — the two percent-encoders in play:
  - the value encoder `qs` applies under `encodeValuesOnly`: the RFC 3986
    section 2.3 unreserved characters are kept, everything else becomes
    UTF-8 `%XX`, upper-case;
  - the `application/x-www-form-urlencoded` serializer of `URLSearchParams`
    (WHATWG URL standard, section 5.2), which encodes names as well as
    values.

  A percent-decoder is included as the encoders' partner.
- `filters.dfy` — the filter tree (`FilterNode`: a bare value, an operator
  condition, or a nested object). It holds `FilterLeaves`, the walk that
  `qs.stringify({ filters }, { arrayFormat: 'brackets', encodeValuesOnly: true })`
  performs, and the keys `filters[a][b][$op]` it writes. A key parser is the
  partner: it reads every written key back as its path.
- `query.dfy` — the parameter list built by `buildUrl` (`populate[]`, then
  `pagination[limit|page|pageSize]`, then `sort`), the query string, and
  the `api/{contentType}?{filters}&{params}` reference.
- `client.dfy` — the client itself:
  - `StrapiClient` is an immutable value holding `baseUrl` and `storeSlug`;
  - `BuildUrl` is a method that appends to a parameter sequence in a loop,
    as the source's `forEach` does, and is proved equal to the reference
    resolved against the base URL;
  - `Fetch` settles a response given as an input;
  - the eleven resource methods are functions returning the `FetchOptions`
    record, each with its exact filter leaves and parameters proved.

A resource call such as `getPage(slug)` is therefore
`Fetch(c.GetPage(slug, None), response)` in the model.

Four behaviours of the code are easy to misread:

- A bare filter value `{ slug }` (as in `getStore`) is written
  `filters[slug]=v`. It is not the same as `{ slug: { $eq: v } }`, which gives
  `filters[slug][$eq]=v` (`Filters.ShorthandIsNotEquality`).
- `URLSearchParams` percent-encodes the parameter names. The URL therefore
  carries `populate%5B%5D=...` and `pagination%5Bpage%5D=1`, not literal
  brackets (`StrapiApi.PopulateKeyOnTheWire`, `StrapiApi.PageKeyOnTheWire`).
- There is no single store-slug precedence rule. Four methods use
  `store_slug || this.storeSlug`, so an empty slug also falls back to the
  configured store. Five use a default parameter, so an explicit `""` is
  sent as is. `getProducts` has no default at all: with no slug, its
  `$eq: undefined` is dropped and no filter is sent.
- The `getStores` documentation promises a keyword search over several
  attributes. The `filter` option of `getStores`, `getPosts` and
  `getProducts` is read by none of them (`StrapiApi.ListKeywordIgnored`).

## Model

| member | source | states |
|---|---|---|
| Strings.Trim | src/api/api.strapi.ts:49 | `field.trim()`: the result is a contiguous slice of the input, everything cut off before and after it is white space, and the result neither starts nor ends with white space |
| Strings.TrimUnchanged | src/api/api.strapi.ts:49 | a string that neither starts nor ends with white space is left as it is by `trim` |
| Strings.TrimIdempotent | src/api/api.strapi.ts:49 | trimming twice is trimming once |
| Strings.Split | src/api/api.strapi.ts:48 | `populate.split(',')`, never without a piece; see `SplitRejoins` and `SplitJoin` |
| Strings.SplitRejoins | src/api/api.strapi.ts:48 | `populate.split(',')`: no piece contains the separator, and joining the pieces with it gives back the input |
| Strings.SplitAround | src/api/api.strapi.ts:48 | splitting `a + sep + b` gives the pieces of `a` followed by the pieces of `b` |
| Strings.SplitNoSeparator | src/api/api.strapi.ts:48 | a string without the separator splits into itself alone |
| Strings.SplitJoin | src/api/api.strapi.ts:48 | for a non-empty list of comma-free strings, splitting their comma-join gives back exactly that list |
| Strings.IntToDecimal | src/api/api.strapi.ts:52-54 | definition of `toString()` on an integer; see `DecimalRoundTrip` |
| Strings.NatToDecimal | src/api/api.strapi.ts:52-54 | `toString()` of a natural number: only decimal digits, at least one, and no leading zero unless the number is 0 |
| Strings.DecimalRoundTrip | src/api/api.strapi.ts:52-54 | parsing `toString()` of any integer, negative ones included, gives the integer back |
| Encoding.Utf8 | src/api/api.strapi.ts:34-37 | every code point becomes 1 to 4 bytes, each below 256, with a single byte, equal to the code point, exactly for ASCII |
| Encoding.Utf8RoundTrip | src/api/api.strapi.ts:34-37 | decoding the UTF-8 bytes of any string gives the string back, so the value encoder loses nothing |
| Encoding.Utf8BytesInjective | src/api/api.strapi.ts:34-37 | two strings with the same UTF-8 bytes are equal |
| Encoding.EncodeValue | src/api/api.strapi.ts:34-37 | the `qs` value encoder writes only unreserved characters and `%`, and never shortens its input |
| Encoding.EncodeValueAppend | src/api/api.strapi.ts:34-37 | the value encoder works character by character: it distributes over concatenation |
| Encoding.EncodeValueUnchanged | src/api/api.strapi.ts:34-37 | a value is left as it is by the encoder if and only if all its characters are unreserved |
| Encoding.DecodeEncodeValue | src/api/api.strapi.ts:34-37 | percent-decoding an encoded value gives exactly the UTF-8 bytes of the original value |
| Encoding.FormEncode | src/api/api.strapi.ts:57 | the `URLSearchParams` serializer of one name or value writes only form-safe characters, `%` and `+`; `FormRoundTrip` shows it loses nothing |
| Encoding.FormEncodeAppend | src/api/api.strapi.ts:57 | the form serializer distributes over concatenation |
| Encoding.FormEncodeUnchanged | src/api/api.strapi.ts:57 | a string of form-safe characters is written as it is |
| Encoding.FormEncodeBracketed | src/api/api.strapi.ts:49-54 | a parameter name `name[sub]` of form-safe parts is written `name%5Bsub%5D` |
| Encoding.SplitJoinPairs | src/api/api.strapi.ts:57 | pairs free of `&` can be recovered by splitting their `&`-joined segments |
| Encoding.FormPairsHaveNoAmpersand | src/api/api.strapi.ts:57 | after form encoding no parameter name or value contains `&`, so `&` separates parameters only |
| Encoding.FormDecodeEncode | src/api/api.strapi.ts:57 | reading a serialized name or value back as the form-urlencoded parser does (`+` a space, `%XY` a byte) gives the UTF-8 bytes of the original |
| Encoding.FormRoundTrip | src/api/api.strapi.ts:57 | decoding a serialized name or value gives back exactly the original text |
| Encoding.FormEncodeInjective | src/api/api.strapi.ts:57 | two names or values that serialize alike are equal, so distinct parameters stay distinct on the wire |
| Encoding.FormSerializeRoundTrip | src/api/api.strapi.ts:57 | `params.toString()` read back: split at `&`, each piece split at `=` into two halves that decode to the parameter's name and value, in order; no parameters give the empty string |
| Encoding.FormSerialize | src/api/api.strapi.ts:57 | definition of `params.toString()`; see `FormSerializeRoundTrip` and `QueryLayout` |
| Filters.OperatorKey | src/api/api.strapi.ts:9-12 | every operator key starts with `$` and contains none of `]`, `&`, `=` |
| Filters.Render | src/api/api.strapi.ts:34-37 | definition of the text `qs` writes for a string, number, boolean or `null` value; see `ShorthandFilterString` |
| Filters.NodeLeaves | src/api/api.strapi.ts:33-37 | definition of the `qs` walk of one filter value; see `NodeLeavesUnder` and `ChainLeaves` |
| Filters.FieldLeaves | src/api/api.strapi.ts:33-37 | definition of the `qs` walk of an object's keys in order; see `FieldLeavesUnder` and `FieldLeavesAppend` |
| Filters.FilterLeaves | src/api/api.strapi.ts:33-37 | definition of the leaves of `{ filters }`, none when `filters` is undefined; see `FilterLeavesPlain` and `FilterRoundTrip` |
| Filters.FilterKey | src/api/api.strapi.ts:33-37 | definition of the key `filters[k1][k2]...` of a leaf; see `BracketsRoundTrip` |
| Filters.FilterPairs | src/api/api.strapi.ts:33-37 | definition of one pair per leaf, the key unencoded and the value encoded; see `FilterRoundTrip` |
| Filters.FilterString | src/api/api.strapi.ts:33-37 | definition of `buildFilterString`; see `SingleLeafString` and `QueryLayout` |
| Filters.ListLeaves | src/api/api.strapi.ts:33-37 | an array value gives at most one leaf per element, all at the same path, and exactly one per element when none is undefined |
| Filters.NodeLeavesUnder | src/api/api.strapi.ts:33-37 | every leaf of a filter lies under the filter's own path, and plain keys give plain leaf paths |
| Filters.FieldLeavesUnder | src/api/api.strapi.ts:33-37 | every leaf of an object's fields lies strictly below the object's path, and plain keys give plain leaf paths |
| Filters.FilterLeavesPlain | src/api/api.strapi.ts:33-37 | a filter object whose keys hold no `]`, `&` or `=` only has leaves whose paths hold none of them either |
| Filters.FieldLeavesAppend | src/api/api.strapi.ts:33-37 | the fields of an object are written in their `Object.keys` order: the leaves of `a + b` are those of `a`, then those of `b` |
| Filters.ChainLeaves | src/api/api.strapi.ts:33-37 | a chain of nested single-key objects puts its leaves at the chain's keys appended to the path |
| Filters.ConditionIsOperatorField | src/api/api.strapi.ts:9-16 | a condition `{$op: v}` is written as a nested object with the single key `$op` |
| Filters.NestedEqualityPair | src/api/api.strapi.ts:33-37 | `{k: {k1: ... {$eq: v}}}` gives exactly one pair, key `filters[k][k1]...[$eq]`, value the encoded `v` |
| Filters.ShorthandIsNotEquality | src/api/api.strapi.ts:33-37 | `{k: v}` gives the key `filters[k]`, while `{k: {$eq: v}}` gives `filters[k][$eq]`, both with the encoded `v` |
| Filters.ShorthandFilterString | src/api/api.strapi.ts:33-37 | the filter string of `{k: v}` is exactly `filters[k]=` then the encoded `v` |
| Filters.SingleLeafString | src/api/api.strapi.ts:33-37 | a filter with a single leaf is written `key=value` alone, the key being the leaf's bracketed path and the value encoded |
| Filters.ArrayOperandPairs | src/api/api.strapi.ts:33-37 | an array operand gives one `filters[k][$op][]` pair per element, in order, each value encoded |
| Filters.BracketsRoundTrip | src/api/api.strapi.ts:33-37 | the bracket suffix of a path with plain keys parses back to that path |
| Filters.FilterRoundTrip | src/api/api.strapi.ts:33-37 | keys are written unencoded and values encoded: every written key parses back to its leaf's path, and every value decodes to its leaf's UTF-8 bytes and from them to its leaf's text |
| Query.PopulateGiven | src/api/api.strapi.ts:47 | definition of `if (populate)`; see `PopulateEmptyStringEdge` |
| Query.PopulateFields | src/api/api.strapi.ts:48 | definition of the array or the comma-split string; see `PopulateStringMatchesArray` |
| Query.PopulatePairs | src/api/api.strapi.ts:47-50 | definition of one trimmed `populate[]` entry per field; see `PopulateStringMatchesArray` and `FixedPopulate` |
| Query.NumberGiven | src/api/api.strapi.ts:52-54 | definition of `if (paginate?.x)`; see `PaginationParams` |
| Query.PaginationPairs | src/api/api.strapi.ts:52-54 | definition of the pagination appends; see `PaginationParams` and `PageOnly` |
| Query.SortGiven | src/api/api.strapi.ts:55 | definition of `if (sort)`; see `SortAppearsOnce` |
| Query.SortPairs | src/api/api.strapi.ts:55 | definition of the sort append; see `SortAppearsOnce` |
| Query.ParamPairs | src/api/api.strapi.ts:43-55 | definition of everything appended to `params`, in append order; see `PopulateComesFirst`, `PaginationParams` and `SortAppearsOnce` |
| Query.QueryString | src/api/api.strapi.ts:57 | definition of `${filterString}&${params.toString()}`; see `QueryLayout` and `NoFilterQuery` |
| Query.Target | src/api/api.strapi.ts:57 | definition of the relative reference `api/${contentType}?...`; see `StrapiClient.BuildUrl` |
| Query.PopulateStringMatchesArray | src/api/api.strapi.ts:47-50 | a comma-joined populate string and the array of the same comma-free paths give the same `populate[]` entries |
| Query.PopulateEmptyStringEdge | src/api/api.strapi.ts:47-50 | the empty string is falsy and sends no entry, while the array `[""]` sends one empty entry |
| Query.PaginationParams | src/api/api.strapi.ts:52-54 | one pagination parameter per present, non-zero field, in the order limit, page, pageSize, each value parsing back to its field |
| Query.PageOnly | src/api/api.strapi.ts:52-54 | a window with only `page` sends only `pagination[page]` |
| Query.NoFilterQuery | src/api/api.strapi.ts:45-57 | a request without defined filter leaves has an empty filter string, so its query starts with `&` |
| Query.PopulateOnly | src/api/api.strapi.ts:47-55 | a request without page window and sort sends its populate entries and nothing else |
| Query.PopulateComesFirst | src/api/api.strapi.ts:47-55 | every `populate[]` parameter comes before every pagination and sort parameter |
| Query.PagedParams | src/api/api.strapi.ts:52-55 | a list request's parameters are its populate entries, then page and page size, then sort |
| Query.SortAppearsOnce | src/api/api.strapi.ts:55 | `sort` appears exactly once, as the last parameter, when given and non-empty, and not at all otherwise |
| Query.QueryLayout | src/api/api.strapi.ts:45-57 | the query splits at `&` into the filter segments followed by the parameter segments: filters always come first |
| StrapiApi.Resolve | src/api/api.strapi.ts:57 | the URL is the base, then exactly one `/`, added only when the base does not end in one, then the reference |
| StrapiApi.FixedPopulate | src/api/api.strapi.ts:47-50 | a comma-joined list of trimmed, comma-free paths sends exactly those paths as `populate[]` entries, in order |
| StrapiApi.StrapiClient.BuildUrl | src/api/api.strapi.ts:41-60 | the URL the loop builds is the base URL joined with `api/{contentType}?{filters}&{params}` |
| StrapiApi.StrapiClient.Fetch | src/api/api.strapi.ts:62-78 | a non-ok response always fails with `Failed to fetch {contentType}`; an ok response returns its decoded body unchanged; an unparsable body fails |
| StrapiApi.StrapiClient.ExplicitOrDefault | src/api/api.strapi.ts:88 | definition of the logical-or fallback from `store_slug` to `this.storeSlug`, also at lines 234, 253 and 273; see `StoreScopeRules` |
| StrapiApi.StrapiClient.ArgumentOrDefault | src/api/api.strapi.ts:118 | definition of the default parameter `store_slug = this.storeSlug`, also at lines 132, 149, 163 and 186; see `StoreScopeRules` |
| StrapiApi.StrapiClient.GetProduct | src/api/api.strapi.ts:81-97 | `products`, filtered on the store slug (explicit if non-empty, else configured) and the product slug, in that order, with the five product populate paths |
| StrapiApi.StrapiClient.GetProducts | src/api/api.strapi.ts:99-116 | `products`, filtered on the store slug only when one is passed, with the caller's page, page size and sort |
| StrapiApi.StrapiClient.GetEvents | src/api/api.strapi.ts:118-130 | `events` of the argument store, or of the configured one when omitted, with the six event populate paths |
| StrapiApi.StrapiClient.GetEventBySlug | src/api/api.strapi.ts:132-147 | `events` filtered on the store slug (argument or default) and the event slug |
| StrapiApi.StrapiClient.GetStore | src/api/api.strapi.ts:149-155 | `stores` filtered by the shorthand key `filters[slug]`, with the five store populate paths |
| StrapiApi.StrapiClient.GetPages | src/api/api.strapi.ts:163-179 | `pages` that are `Active`, of the given or default store, populating only `SEO.socialImage` |
| StrapiApi.StrapiClient.GetPage | src/api/api.strapi.ts:186-203 | a page by store and slug, always page 1 of size 10, with the six page populate paths and no sort |
| StrapiApi.StrapiClient.GetStores | src/api/api.strapi.ts:209-223 | `stores` that are `active`, with the caller's page, page size and sort |
| StrapiApi.StrapiClient.GetPosts | src/api/api.strapi.ts:225-241 | `articles` of the explicit or configured store, with the caller's page, page size and sort |
| StrapiApi.StrapiClient.GetPost | src/api/api.strapi.ts:243-260 | an article by slug, then store slug, newest first |
| StrapiApi.StrapiClient.GetAlbum | src/api/api.strapi.ts:263-280 | an album by slug, then store slug, with its tracks populated, newest first |
| StrapiApi.StoreScopeRules | src/api/api.strapi.ts:88-118 | both store rules pick a non-empty explicit slug and fall back when it is omitted; on `""` the `||` rule falls back and the default-parameter rule keeps `""` |
| StrapiApi.StoreLookupFilter | src/api/api.strapi.ts:149-155 | the filter string of `getStore` is exactly `filters[slug]=` and the encoded slug |
| StrapiApi.UnscopedProductsQuery | src/api/api.strapi.ts:99-116 | `getProducts` without a store sends an empty filter string, so its query starts with `&` |
| StrapiApi.ListKeywordIgnored | src/api/api.strapi.ts:99-241 | the `filter` option of the three list methods does not change the request |
| StrapiApi.EntriesOnTheWire | src/api/api.strapi.ts:49-57 | populate entries of form-safe paths are written `populate%5B%5D=path` |
| StrapiApi.PopulateKeyOnTheWire | src/api/api.strapi.ts:49-57 | the name `populate[]` is written `populate%5B%5D` |
| StrapiApi.PageKeyOnTheWire | src/api/api.strapi.ts:53-57 | the name `pagination[page]` is written `pagination%5Bpage%5D` |

## Left out

- The HTTP request, its `Content-Type` header and the `console.info` of the URL are I/O. `Fetch` takes the response as an input: whether the status was ok, and the body if it parses as JSON.
- `new URL(reference, base)` is modelled by `StrapiApi.Resolve` as joining with one `/`, and `url.toString()` as giving that text back. This assumes a base already in serialized form: an origin with a lower-case scheme and host, no default port, and either no path or a path ending in `/`, such as `https://api.markket.place`. The real parser lower-cases the scheme and host and drops a default port. It also replaces the last segment of a base path that does not end in `/`. The model captures none of these.
- The URL parser reparses the reference. The model assumes plain content types and plain filter keys, made of letters, digits and `.`, `-`, `_`, `$`, `[`, `]`, as all the resource methods use. It does not capture the parser's own handling of other characters in them, which `qs` and the template string leave unencoded. Such characters would be percent-encoded (space, `"`, `<`, `>`, `'`), would reshape the path (`?`, `/`, `..` in the content type), or would truncate the request: a `#` ends the query, and everything after it becomes a fragment that `fetch` never sends.
- `new URL(...)` (line 57) throws a `TypeError` when the base URL cannot be parsed. `StrapiApi.Resolve` always succeeds, so the model does not capture that failure and assumes a well-formed base.
- `fetch` (line 67) rejects its promise on a network failure, before there is any response. `HttpResponse` describes only a response that arrived, so that rejection is not modelled.
- Strings.IntToDecimal: writes every digit of any integer. `Number.prototype.toString` switches to exponent form at 10^21 and above, and integers above 2^53 have already lost precision, so the model matches JavaScript only for safe integers.
- Numbers are integers. Fractional or non-finite page numbers and their `toString()` forms are not modelled. Filter values are strings, integers, booleans and `null`.
- `src/config.ts` reads environment variables. The base URL and the default slug are the two fields of `StrapiApi.StrapiClient` instead.
- The `FilterOperator` interface (`{operator, value}`, lines 9-12) is declared but never built by the client. Its operators are modelled in the `{ $op: value }` form the resource methods use.
- Filter object keys: a `Nested` node lists its fields in the order `Object.keys` gives them, with integer-like keys first in ascending order and the others in insertion order. Building that order from an object literal is not modelled. Nor is the rule that an object holds each key once; the lemmas about filters hold for any sequence of fields.
- Lone surrogates in strings are left out. The `qs` encoder handles them specially, but Dafny characters are Unicode scalar values, so they cannot occur.
- The React components and `App.tsx` render data and hold UI state. They are not part of this model.
