/**
 * Filter trees and their bracket encoding. `buildFilterString` hands
 * `{ filters }` to `qs.stringify` with `arrayFormat: 'brackets'` and
 * `encodeValuesOnly: true`; that walks the tree in the order of its object keys and writes one
 * `filters[k1][k2]...=value` pair per defined leaf, an array element as
 * `...[]=value`, the keys as they are and the values percent-encoded.
 */
module Filters {

  import opened Wrappers
  import opened Strings
  import opened Encoding

  /** The comparison operators a condition may use. */
  datatype Operator = Eq | Contains | In | Gt | Lt | Gte | Lte | Ne

  /** The object key the backend reads the operator from. */
  function OperatorKey(op: Operator): (k: string)
    ensures |k| >= 3 && k[0] == '$'
    ensures ']' !in k && '&' !in k && '=' !in k
  {
    match op
    case Eq => "$eq"
    case Contains => "$contains"
    case In => "$in"
    case Gt => "$gt"
    case Lt => "$lt"
    case Gte => "$gte"
    case Lte => "$lte"
    case Ne => "$ne"
  }

  /** A leaf value: a string, an integer, a boolean, `null` or `undefined`. */
  datatype Scalar = Str(s: string) | Num(n: int) | Flag(b: bool) | Null | Undefined

  /** The text `qs` writes for a defined value before encoding it; `null` is written empty. */
  function Render(v: Scalar): string
    requires !v.Undefined?
  {
    match v
    case Str(s) => s
    case Num(n) => IntToDecimal(n)
    case Flag(b) => if b then "true" else "false"
    case Null => ""
  }

  /** The value of a condition: one value, or an array of them. */
  datatype Operand = One(value: Scalar) | Many(values: seq<Scalar>)

  /**
   * A filter: a bare value (`{slug: "x"}`), a condition (`{slug: {$eq: "x"}}`)
   * or a nested object whose fields filter a relation (`{store: {slug: ...}}`).
   * The fields of an object are listed in the order `Object.keys` gives
   * them, which is the order `qs` walks: integer-like keys first in
   * ascending order, then the other keys in insertion order. A JavaScript
   * object holds each key once; the sequence is meant to hold distinct keys,
   * and every lemma about it holds whether or not they are.
   */
  datatype FilterNode = Value(scalar: Scalar) | Condition(op: Operator, operand: Operand) | Nested(fields: seq<Field>)

  datatype Field = Field(key: string, node: FilterNode)

  /** The sequence of object keys from the root of a filter down to a leaf; `""` stands for `[]`. */
  type Path = seq<string>

  /** One defined leaf of a filter: where it is and the text of its value. */
  datatype Leaf = Leaf(path: Path, text: string)

  /** `p` is a prefix of `q`. */
  predicate PathPrefix(p: Path, q: Path)
  {
    |p| <= |q| && q[..|p|] == p
  }

  /** A key that cannot be confused with the bracket, pair or assignment delimiters. */
  predicate PlainKey(k: string)
  {
    ']' !in k && '&' !in k && '=' !in k
  }

  predicate PlainPath(p: Path)
  {
    forall j :: 0 <= j < |p| ==> PlainKey(p[j])
  }

  /** Every object key in the filter is plain. */
  predicate PlainNode(node: FilterNode)
    decreases node
  {
    match node
    case Value(_) => true
    case Condition(_, _) => true
    case Nested(fields) => PlainFields(fields)
  }

  predicate PlainFields(fields: seq<Field>)
    decreases fields
  {
    fields != [] ==> PlainKey(fields[0].key) && PlainNode(fields[0].node) && PlainFields(fields[1..])
  }

  lemma PlainExtend(p: Path, k: string)
    requires PlainPath(p) && PlainKey(k)
    ensures PlainPath(p + [k])
  {
    assert forall j :: 0 <= j < |p| ==> (p + [k])[j] == p[j];
  }

  lemma PrefixExtend(p: Path, q: Path, k: string)
    requires PathPrefix(p + [k], q)
    ensures PathPrefix(p, q) && |q| > |p|
  {
    assert q[..|p|] == (p + [k])[..|p|] == p;
  }

  /** The leaf of a single value at `path`; an undefined value is skipped. */
  function ScalarLeaves(path: Path, v: Scalar): seq<Leaf>
  {
    if v.Undefined? then [] else [Leaf(path, Render(v))]
  }

  /** One leaf at `path` per defined array element, in array order. */
  function ListLeaves(path: Path, vs: seq<Scalar>): (leaves: seq<Leaf>)
    ensures |leaves| <= |vs|
    ensures forall i :: 0 <= i < |leaves| ==> leaves[i].path == path
    ensures (forall i :: 0 <= i < |vs| ==> !vs[i].Undefined?) ==> |leaves| == |vs|
  {
    if vs == [] then [] else ScalarLeaves(path, vs[0]) + ListLeaves(path, vs[1..])
  }

  /** The defined leaves of a filter at `path`, in the order `qs` visits them. */
  function NodeLeaves(path: Path, node: FilterNode): seq<Leaf>
    decreases node
  {
    match node
    case Value(v) => ScalarLeaves(path, v)
    case Condition(op, One(v)) => ScalarLeaves(path + [OperatorKey(op)], v)
    case Condition(op, Many(vs)) => ListLeaves(path + [OperatorKey(op), ""], vs)
    case Nested(fields) => FieldLeaves(path, fields)
  }

  /** The leaves of the fields of an object at `path`, field by field. */
  function FieldLeaves(path: Path, fields: seq<Field>): seq<Leaf>
    decreases fields
  {
    if fields == [] then []
    else NodeLeaves(path + [fields[0].key], fields[0].node) + FieldLeaves(path, fields[1..])
  }

  /**
   * Every leaf of a filter lies under the filter's own path, and below a
   * plain path a filter with plain keys only has leaves with plain paths.
   */
  lemma {:induction false} NodeLeavesUnder(path: Path, node: FilterNode)
    ensures forall i :: 0 <= i < |NodeLeaves(path, node)| ==> PathPrefix(path, NodeLeaves(path, node)[i].path)
    ensures PlainPath(path) && PlainNode(node) ==>
      forall i :: 0 <= i < |NodeLeaves(path, node)| ==> PlainPath(NodeLeaves(path, node)[i].path)
    decreases node
  {
    match node
    case Value(v) =>
    case Condition(op, One(v)) =>
      var p := path + [OperatorKey(op)];
      assert p[..|path|] == path;
      if PlainPath(path) { PlainExtend(path, OperatorKey(op)); }
    case Condition(op, Many(vs)) =>
      var p := path + [OperatorKey(op), ""];
      assert p[..|path|] == path;
      if PlainPath(path) {
        assert forall j :: 0 <= j < |path| ==> p[j] == path[j];
        assert PlainPath(p);
      }
    case Nested(fields) => FieldLeavesUnder(path, fields);
  }

  /** Every leaf of an object's fields lies strictly below the object's path, plain when its keys are. */
  lemma {:induction false} FieldLeavesUnder(path: Path, fields: seq<Field>)
    ensures forall i :: 0 <= i < |FieldLeaves(path, fields)| ==>
      PathPrefix(path, FieldLeaves(path, fields)[i].path) && |FieldLeaves(path, fields)[i].path| > |path|
    ensures PlainPath(path) && PlainFields(fields) ==>
      forall i :: 0 <= i < |FieldLeaves(path, fields)| ==> PlainPath(FieldLeaves(path, fields)[i].path)
    decreases fields
  {
    if fields != [] {
      var k := fields[0].key;
      var first := NodeLeaves(path + [k], fields[0].node);
      var rest := FieldLeaves(path, fields[1..]);
      NodeLeavesUnder(path + [k], fields[0].node);
      FieldLeavesUnder(path, fields[1..]);
      assert FieldLeaves(path, fields) == first + rest;
      forall i | 0 <= i < |first| ensures PathPrefix(path, first[i].path) && |first[i].path| > |path| {
        PrefixExtend(path, first[i].path, k);
      }
      if PlainPath(path) && PlainFields(fields) {
        PlainExtend(path, k);
      }
    }
  }

  /** The leaves of the request's `filters` object; an absent object has none. */
  function FilterLeaves(filters: Option<seq<Field>>): seq<Leaf>
  {
    match filters
    case None => []
    case Some(fields) => FieldLeaves([], fields)
  }

  /** Below the root, a filter whose keys are plain only has leaves with plain paths. */
  lemma FilterLeavesPlain(filters: Option<seq<Field>>)
    requires filters.Some? ==> PlainFields(filters.value)
    ensures forall i :: 0 <= i < |FilterLeaves(filters)| ==> PlainPath(FilterLeaves(filters)[i].path)
  {
    if filters.Some? {
      FieldLeavesUnder([], filters.value);
    }
  }

  /** `[k1][k2]...` for a path. */
  function Brackets(path: Path): string
  {
    if path == [] then "" else "[" + path[0] + "]" + Brackets(path[1..])
  }

  lemma {:induction false} BracketsAppend(p: Path, q: Path)
    ensures Brackets(p + q) == Brackets(p) + Brackets(q)
  {
    if p == [] {
      assert p + q == q;
    } else {
      assert (p + q)[0] == p[0] && (p + q)[1..] == p[1..] + q;
      BracketsAppend(p[1..], q);
    }
  }

  /** The query-string key of a leaf. */
  function FilterKey(path: Path): string
  {
    "filters" + Brackets(path)
  }

  /** `buildFilterString` as pairs: one `(key, encoded value)` per leaf, in leaf order. */
  function FilterPairs(filters: Option<seq<Field>>): (pairs: seq<(string, string)>)
  {
    var leaves := FilterLeaves(filters);
    seq(|leaves|, i requires 0 <= i < |leaves| => (FilterKey(leaves[i].path), EncodeValue(leaves[i].text)))
  }

  /** `buildFilterString`: the pairs written `key=value` and joined with `&`. */
  function FilterString(filters: Option<seq<Field>>): string
  {
    JoinPairs(FilterPairs(filters))
  }

  /** An object with a single field has the leaves of that field's filter one key further down. */
  lemma SingleFieldLeaves(path: Path, f: Field)
    ensures FieldLeaves(path, [f]) == NodeLeaves(path + [f.key], f.node)
  {
    assert [f][1..] == [];
  }

  lemma SingleLeafPairs(filters: Option<seq<Field>>, path: Path, text: string)
    requires FilterLeaves(filters) == [Leaf(path, text)]
    ensures FilterPairs(filters) == [(FilterKey(path), EncodeValue(text))]
  {
  }

  lemma {:induction false} FieldLeavesAppend(path: Path, a: seq<Field>, b: seq<Field>)
    ensures FieldLeaves(path, a + b) == FieldLeaves(path, a) + FieldLeaves(path, b)
  {
    if a == [] {
      assert a + b == b;
    } else {
      assert (a + b)[0] == a[0] && (a + b)[1..] == a[1..] + b;
      FieldLeavesAppend(path, a[1..], b);
    }
  }

  /** `{key: {$eq: v}}`: a condition on one of the resource's own fields. */
  function FieldEquals(key: string, v: Scalar): Field
  {
    Field(key, Condition(Eq, One(v)))
  }

  /** `{relation: {key: {$eq: v}}}`: a condition on a field of a related resource. */
  function RelationEquals(relation: string, key: string, v: Scalar): Field
  {
    Field(relation, Nested([FieldEquals(key, v)]))
  }

  lemma FieldEqualsLeaves(key: string, v: Scalar)
    ensures FieldLeaves([], [FieldEquals(key, v)]) == ScalarLeaves([key, "$eq"], v)
  {
    SingleFieldLeaves([], FieldEquals(key, v));
    assert [] + [key] == [key];
    assert [key] + ["$eq"] == [key, "$eq"];
  }

  lemma RelationEqualsLeaves(relation: string, key: string, v: Scalar)
    ensures FieldLeaves([], [RelationEquals(relation, key, v)]) == ScalarLeaves([relation, key, "$eq"], v)
  {
    SingleFieldLeaves([], RelationEquals(relation, key, v));
    assert [] + [relation] == [relation];
    SingleFieldLeaves([relation], FieldEquals(key, v));
    assert [relation] + [key] == [relation, key];
    assert [relation, key] + ["$eq"] == [relation, key, "$eq"];
  }

  /** The leaves of a two-field filter object: the first field's, then the second's. */
  lemma TwoFieldLeaves(f: Field, g: Field, first: seq<Leaf>, second: seq<Leaf>)
    requires FieldLeaves([], [f]) == first && FieldLeaves([], [g]) == second
    ensures FilterLeaves(Some([f, g])) == first + second
  {
    FieldLeavesAppend([], [f], [g]);
    assert [f] + [g] == [f, g];
  }

  /** A filter with a single leaf is written `key=value`, with no `&` around it. */
  lemma SingleLeafString(filters: Option<seq<Field>>, path: Path, text: string)
    requires FilterLeaves(filters) == [Leaf(path, text)]
    ensures FilterString(filters) == FilterKey(path) + "=" + EncodeValue(text)
  {
    SingleLeafPairs(filters, path, text);
    assert Segments(FilterPairs(filters)) == [Segment((FilterKey(path), EncodeValue(text)))];
  }

  /** A field whose filter is `node` reached through the nested keys `keys`. */
  function Chain(keys: Path, node: FilterNode): FilterNode
  {
    if keys == [] then node else Nested([Field(keys[0], Chain(keys[1..], node))])
  }

  /** Nesting adds the nested keys to the leaves' paths and changes nothing else. */
  lemma {:induction false} ChainLeaves(path: Path, keys: Path, node: FilterNode)
    ensures NodeLeaves(path, Chain(keys, node)) == NodeLeaves(path + keys, node)
    decreases keys
  {
    if keys == [] {
      assert path + keys == path;
    } else {
      SingleFieldLeaves(path, Field(keys[0], Chain(keys[1..], node)));
      ChainLeaves(path + [keys[0]], keys[1..], node);
      assert path + [keys[0]] + keys[1..] == path + keys;
    }
  }

  /** A condition `{$op: v}` has the leaves of the object with the single field `$op`. */
  lemma ConditionIsOperatorField(path: Path, op: Operator, v: Scalar)
    ensures NodeLeaves(path, Condition(op, One(v))) == NodeLeaves(path, Nested([Field(OperatorKey(op), Value(v))]))
  {
    SingleFieldLeaves(path, Field(OperatorKey(op), Value(v)));
  }

  /** `{ k: {k1: ... {kn: {$eq: v}}} }` is encoded as exactly `filters[k][k1]...[kn][$eq]=` and the encoded `v`. */
  lemma NestedEqualityPair(k: string, keys: Path, v: Scalar)
    requires !v.Undefined?
    ensures FilterPairs(Some([Field(k, Chain(keys, Condition(Eq, One(v))))]))
         == [(FilterKey([k] + keys + ["$eq"]), EncodeValue(Render(v)))]
  {
    var filters := Some([Field(k, Chain(keys, Condition(Eq, One(v))))]);
    SingleFieldLeaves([], Field(k, Chain(keys, Condition(Eq, One(v)))));
    ChainLeaves([k], keys, Condition(Eq, One(v)));
    assert [] + [k] == [k];
    SingleLeafPairs(filters, [k] + keys + ["$eq"], Render(v));
  }

  lemma BracketsOne(k: string)
    ensures Brackets([k]) == "[" + k + "]"
  {
    assert [k][1..] == [];
  }

  lemma FilterKeyOne(k: string)
    ensures FilterKey([k]) == "filters[" + k + "]"
  {
    BracketsOne(k);
  }

  lemma ValuePair(k: string, v: Scalar)
    requires !v.Undefined?
    ensures FilterPairs(Some([Field(k, Value(v))])) == [(FilterKey([k]), EncodeValue(Render(v)))]
  {
    SingleFieldLeaves([], Field(k, Value(v)));
    assert [] + [k] == [k];
    SingleLeafPairs(Some([Field(k, Value(v))]), [k], Render(v));
  }

  lemma EqualityPair(k: string, v: Scalar)
    requires !v.Undefined?
    ensures FilterPairs(Some([Field(k, Condition(Eq, One(v)))])) == [(FilterKey([k]) + "[$eq]", EncodeValue(Render(v)))]
  {
    SingleFieldLeaves([], Field(k, Condition(Eq, One(v))));
    assert [] + [k] == [k];
    assert FilterLeaves(Some([Field(k, Condition(Eq, One(v)))])) == [Leaf([k] + ["$eq"], Render(v))];
    SingleLeafPairs(Some([Field(k, Condition(Eq, One(v)))]), [k] + ["$eq"], Render(v));
    FilterKeyEq(k);
  }

  lemma FilterKeyEq(k: string)
    ensures FilterKey([k] + ["$eq"]) == FilterKey([k]) + "[$eq]"
  {
    BracketsOne("$eq");
    BracketsAppend([k], ["$eq"]);
    assert FilterKey([k] + ["$eq"]) == "filters" + (Brackets([k]) + "[$eq]");
  }

  /**
   * A bare value is not written as an `$eq` condition: `{k: v}` gives the key
   * `filters[k]` while `{k: {$eq: v}}` gives `filters[k][$eq]`, with the same value.
   */
  lemma ShorthandIsNotEquality(k: string, v: Scalar)
    requires !v.Undefined?
    ensures FilterPairs(Some([Field(k, Value(v))])) == [("filters[" + k + "]", EncodeValue(Render(v)))]
    ensures FilterPairs(Some([Field(k, Condition(Eq, One(v)))])) == [("filters[" + k + "][$eq]", EncodeValue(Render(v)))]
  {
    ValuePair(k, v);
    EqualityPair(k, v);
    FilterKeyOne(k);
    EqualityKeyOne(k);
  }

  lemma EqualityKeyOne(k: string)
    ensures FilterKey([k]) + "[$eq]" == "filters[" + k + "][$eq]"
  {
    FilterKeyOne(k);
    assert "filters[" + k + "]" + "[$eq]" == "filters[" + k + "][$eq]";
  }

  /** The whole filter string of a single shorthand field `{k: v}`. */
  lemma ShorthandFilterString(k: string, v: string)
    ensures FilterString(Some([Field(k, Value(Str(v)))])) == "filters[" + k + "]=" + EncodeValue(v)
  {
    ValuePair(k, Str(v));
    FilterKeyOne(k);
    var key := "filters[" + k + "]";
    var pairs := FilterPairs(Some([Field(k, Value(Str(v)))]));
    assert pairs == [(key, EncodeValue(v))];
    assert Segments(pairs) == [key + "=" + EncodeValue(v)];
    assert key + "=" == "filters[" + k + "]=";
  }

  /** An array operand gives one `...[$op][]` pair per defined element, in order. */
  lemma ArrayOperandPairs(k: string, op: Operator, vs: seq<Scalar>)
    requires forall i :: 0 <= i < |vs| ==> !vs[i].Undefined?
    ensures var pairs := FilterPairs(Some([Field(k, Condition(op, Many(vs)))]));
      && |pairs| == |vs|
      && forall i :: 0 <= i < |vs| ==> pairs[i] == (FilterKey([k, OperatorKey(op), ""]), EncodeValue(Render(vs[i])))
  {
    var p := [k, OperatorKey(op), ""];
    SingleFieldLeaves([], Field(k, Condition(op, Many(vs))));
    assert [] + [k] + [OperatorKey(op), ""] == p;
    ListLeavesDefined(p, vs);
  }

  lemma {:induction false} ListLeavesDefined(path: Path, vs: seq<Scalar>)
    requires forall i :: 0 <= i < |vs| ==> !vs[i].Undefined?
    ensures forall i :: 0 <= i < |vs| ==> ListLeaves(path, vs)[i] == Leaf(path, Render(vs[i]))
  {
    if vs != [] {
      ListLeavesDefined(path, vs[1..]);
      forall i | 1 <= i < |vs| ensures ListLeaves(path, vs)[i] == Leaf(path, Render(vs[i])) {
        assert vs[1..][i - 1] == vs[i];
      }
    }
  }

  /** The index of the first `]` in `t`, or `|t|` when there is none. */
  function SegmentEnd(t: string): (j: nat)
    ensures j <= |t|
    ensures forall k :: 0 <= k < j ==> t[k] != ']'
    ensures j < |t| ==> t[j] == ']'
  {
    if t == [] || t[0] == ']' then 0 else 1 + SegmentEnd(t[1..])
  }

  /** Reads `[k1][k2]...` back into the path `k1, k2, ...`. */
  function ParseBrackets(t: string): Option<Path>
    decreases |t|
  {
    if t == [] then Some([])
    else if t[0] != '[' then None
    else
      var j := SegmentEnd(t[1..]);
      if j == |t| - 1 then None
      else
        match ParseBrackets(t[j + 2..])
        case None => None
        case Some(rest) => Some([t[1..j + 1]] + rest)
  }

  /** Reads a `filters[...]` key back into a path. */
  function ParseFilterKey(key: string): Option<Path>
  {
    if |key| >= 7 && key[..7] == "filters" then ParseBrackets(key[7..]) else None
  }

  lemma SegmentEndOf(k: string, rest: string)
    requires ']' !in k
    ensures SegmentEnd(k + "]" + rest) == |k|
    decreases |k|
  {
    if k != [] {
      assert (k + "]" + rest)[1..] == k[1..] + "]" + rest;
      SegmentEndOf(k[1..], rest);
    }
  }

  /** The bracket path of a path whose keys hold no `]` reads back as that path. */
  lemma {:induction false} BracketsRoundTrip(path: Path)
    requires PlainPath(path)
    ensures ParseBrackets(Brackets(path)) == Some(path)
  {
    if path != [] {
      var k := path[0];
      var rest := Brackets(path[1..]);
      var t := Brackets(path);
      assert t == "[" + (k + "]" + rest);
      assert t[1..] == k + "]" + rest;
      SegmentEndOf(k, rest);
      assert t[|k| + 2..] == rest;
      assert t[1..|k| + 1] == k;
      assert PlainPath(path[1..]) by {
        forall j | 0 <= j < |path[1..]| ensures PlainKey(path[1..][j]) {
          assert path[1..][j] == path[j + 1];
        }
      }
      BracketsRoundTrip(path[1..]);
      assert [k] + path[1..] == path;
    }
  }

  /** The bracket suffix of a plain path holds no `&`. */
  lemma BracketsHaveNoAmpersand(path: Path)
    requires PlainPath(path)
    ensures '&' !in Brackets(path)
    decreases |path|
  {
    if path != [] {
      assert PlainPath(path[1..]) by {
        forall j | 0 <= j < |path[1..]| ensures PlainKey(path[1..][j]) {
          assert path[1..][j] == path[j + 1];
        }
      }
      BracketsHaveNoAmpersand(path[1..]);
    }
  }

  /**
   * Encoding a filter with plain keys and parsing the pairs back gives its
   * leaves: each key reads back as the leaf's path, and each value
   * percent-decodes to the UTF-8 bytes of the leaf's text, which decode
   * back to that text.
   */
  lemma FilterRoundTrip(filters: Option<seq<Field>>)
    requires filters.Some? ==> PlainFields(filters.value)
    ensures var pairs := FilterPairs(filters);
      var leaves := FilterLeaves(filters);
      && |pairs| == |leaves|
      && forall i :: 0 <= i < |pairs| ==>
           && ParseFilterKey(pairs[i].0) == Some(leaves[i].path)
           && PercentDecode(pairs[i].1) == Utf8Bytes(leaves[i].text)
           && Utf8Decode(PercentDecode(pairs[i].1)) == Some(leaves[i].text)
  {
    var pairs := FilterPairs(filters);
    var leaves := FilterLeaves(filters);
    FilterLeavesPlain(filters);
    forall i | 0 <= i < |pairs|
      ensures ParseFilterKey(pairs[i].0) == Some(leaves[i].path)
      ensures PercentDecode(pairs[i].1) == Utf8Bytes(leaves[i].text)
      ensures Utf8Decode(PercentDecode(pairs[i].1)) == Some(leaves[i].text)
    {
      assert PlainPath(leaves[i].path);
      BracketsRoundTrip(leaves[i].path);
      var key := FilterKey(leaves[i].path);
      assert key[..7] == "filters" && key[7..] == Brackets(leaves[i].path);
      DecodeEncodeValue(leaves[i].text);
      Utf8RoundTrip(leaves[i].text);
    }
  }
}
