/**
 * The interleaved vertex-buffer packer, `createWebgpuVertexBuffer`.
 *
 * A geometry holds named attributes, each a flat value array with `itemSize`
 * components per vertex, and an optional index list. Given a record from
 * attribute name to shader location, the packer sorts the names by location,
 * lays the attributes out one after another inside a vertex record (running
 * byte offset, "float32xN" format), computes the record stride, interleaves
 * every vertex's components into one flat array in vertex order, and passes
 * the index list through.
 *
 * Float values are only copied, never combined, so they are a type parameter.
 */
module VertexPacker {
  import opened Wrappers
  import opened Arith

  /** Bytes per element of a Float32Array. */
  const FLOAT_SIZE: nat := 4
  /** Bytes per element of a Uint16Array. */
  const INDEX_SIZE: nat := 2

  type Uint16 = x: int | 0 <= x < 0x1_0000

  /**
   * One geometry attribute: `itemSize` components per vertex, stored flat,
   * and the vertex `count` the attribute recorded when it was created.
   */
  datatype BufferAttribute<F> = BufferAttribute(values: seq<F>, itemSize: nat, count: nat)

  /** A geometry: named attributes and an index list that may be missing. */
  datatype Geometry<F> = Geometry(attributes: map<string, BufferAttribute<F>>, index: Option<seq<Uint16>>)

  /**
   * One own property of the attribute-location record. The record is a
   * sequence of these in the order the record's keys are enumerated.
   */
  datatype Location = Location(name: string, shaderLocation: nat)

  /** One entry of the vertex buffer layout handed to the pipeline. */
  datatype VertexAttribute = VertexAttribute(shaderLocation: nat, offset: nat, format: string)

  /** What the packer returns. */
  datatype VertexBuffer<F> = VertexBuffer(
    attrBufferLayout: seq<VertexAttribute>,
    attrBufferStride: nat,
    vertexData: seq<F>,
    indices: seq<Uint16>)

  /** The one error the packer raises: the geometry has no index list. */
  datatype PackError = NoIndex

  // ---------------------------------------------------------------------------
  // Sorting the record's keys by shader location

  /** No two entries share a shader location. */
  ghost predicate UniqueLocations(locs: seq<Location>) {
    forall i, j :: 0 <= i < j < |locs| ==> locs[i].shaderLocation != locs[j].shaderLocation
  }

  /** Locations never decrease along the sequence. */
  ghost predicate Ascending(locs: seq<Location>) {
    forall i, j :: 0 <= i < j < |locs| ==> locs[i].shaderLocation <= locs[j].shaderLocation
  }

  /** Locations strictly increase along the sequence. */
  ghost predicate StrictlyAscending(locs: seq<Location>) {
    forall i, j :: 0 <= i < j < |locs| ==> locs[i].shaderLocation < locs[j].shaderLocation
  }

  /**
   * Inserts `e` into an ascending sequence in front of the first entry whose
   * location is not smaller, so `e` stays ahead of entries it ties with.
   */
  function Insert(e: Location, s: seq<Location>): (r: seq<Location>)
    requires Ascending(s)
    ensures |r| == |s| + 1
    ensures r[0] == e || (|s| > 0 && r[0] == s[0])
    ensures multiset(r) == multiset(s) + multiset{e}
    ensures Ascending(r)
  {
    if |s| == 0 then [e]
    else if e.shaderLocation <= s[0].shaderLocation then [e] + s
    else
      assert s == [s[0]] + s[1..];
      var t := Insert(e, s[1..]);
      assert s[0].shaderLocation <= t[0].shaderLocation;
      assert forall j :: 0 <= j < |t| ==> s[0].shaderLocation <= t[j].shaderLocation;
      var r := [s[0]] + t;
      assert forall j :: 1 <= j < |r| ==> r[j] == t[j - 1];
      assert multiset(r) == multiset{s[0]} + multiset(t);
      r
  }

  /**
   * `Object.keys(attributeLocations).sort((a, b) => loc[a] - loc[b])`: a
   * permutation of the record's entries in ascending location order.
   * Each entry is inserted into the sorted rest of the record ahead of the
   * entries it ties with, so ties keep their record order, as the stable
   * `Array.prototype.sort` keeps them.
   */
  function SortByLocation(s: seq<Location>): (r: seq<Location>)
    ensures multiset(r) == multiset(s)
    ensures Ascending(r)
  {
    if |s| == 0 then []
    else
      assert s == [s[0]] + s[1..];
      assert multiset(s) == multiset(s[1..]) + multiset{s[0]};
      Insert(s[0], SortByLocation(s[1..]))
  }

  /** The entries of `s` at shader location `v`, in their order in `s`. */
  function AtLocation(s: seq<Location>, v: nat): (r: seq<Location>)
    ensures |r| <= |s|
    ensures forall k :: 0 <= k < |r| ==> r[k].shaderLocation == v
  {
    if |s| == 0 then []
    else (if s[0].shaderLocation == v then [s[0]] else []) + AtLocation(s[1..], v)
  }

  /** Filtering a sequence with one entry in front filters that entry, then the rest. */
  lemma AtLocationCons(x: Location, t: seq<Location>, v: nat)
    ensures AtLocation([x] + t, v) == (if x.shaderLocation == v then [x] else []) + AtLocation(t, v)
  {
    assert ([x] + t)[1..] == t;
  }

  /** Insertion puts `e` ahead of every entry it ties with and keeps their order. */
  lemma {:induction false} InsertKeepsTies(e: Location, s: seq<Location>, v: nat)
    requires Ascending(s)
    ensures AtLocation(Insert(e, s), v)
      == (if e.shaderLocation == v then [e] else []) + AtLocation(s, v)
  {
    if |s| == 0 {
      assert Insert(e, s) == [e] + s;
      AtLocationCons(e, s, v);
    } else if e.shaderLocation <= s[0].shaderLocation {
      assert Insert(e, s) == [e] + s;
      AtLocationCons(e, s, v);
    } else {
      var t := Insert(e, s[1..]);
      assert Insert(e, s) == [s[0]] + t;
      assert s == [s[0]] + s[1..];
      AtLocationCons(s[0], t, v);
      AtLocationCons(s[0], s[1..], v);
      InsertKeepsTies(e, s[1..], v);
      // `s[0]` sorts strictly before `e`, so at most one of them is at `v`.
      SwapHeads(if s[0].shaderLocation == v then [s[0]] else [],
                if e.shaderLocation == v then [e] else [],
                AtLocation(s[1..], v));
    }
  }

  /** Two parts of which one is empty can be swapped. */
  lemma SwapHeads<T>(a: seq<T>, b: seq<T>, c: seq<T>)
    requires a == [] || b == []
    ensures a + (b + c) == b + (a + c)
  {
    if a == [] {
      assert a + (b + c) == b + c;
    } else {
      assert b + (a + c) == a + c;
    }
  }

  /**
   * The sort is stable: at every shader location, the sorted entries are the
   * record's entries at that location in record order.
   */
  lemma {:induction false} SortStable(s: seq<Location>, v: nat)
    ensures AtLocation(SortByLocation(s), v) == AtLocation(s, v)
  {
    if |s| > 0 {
      SortStable(s[1..], v);
      InsertKeepsTies(s[0], SortByLocation(s[1..]), v);
    }
  }

  /** Inserting an entry whose location is new keeps a strictly ascending sequence strictly ascending. */
  lemma {:induction false} InsertStrict(e: Location, s: seq<Location>)
    requires StrictlyAscending(s)
    requires forall x | x in s :: x.shaderLocation != e.shaderLocation
    ensures StrictlyAscending(Insert(e, s))
  {
    if |s| > 0 && e.shaderLocation > s[0].shaderLocation {
      assert s == [s[0]] + s[1..];
      InsertStrict(e, s[1..]);
      var t := Insert(e, s[1..]);
      assert s[0].shaderLocation < t[0].shaderLocation;
      var r := [s[0]] + t;
      assert forall j :: 1 <= j < |r| ==> r[j] == t[j - 1];
    }
  }

  /** With unique locations the sorted order is strict. */
  lemma {:induction false} SortStrictWhenUnique(s: seq<Location>)
    requires UniqueLocations(s)
    ensures StrictlyAscending(SortByLocation(s))
  {
    if |s| > 0 {
      var t := SortByLocation(s[1..]);
      SortStrictWhenUnique(s[1..]);
      forall x | x in t
        ensures x.shaderLocation != s[0].shaderLocation
      {
        assert x in multiset(s[1..]);
        var q :| 0 <= q < |s[1..]| && s[1..][q] == x;
        assert s[q + 1] == x;
      }
      InsertStrict(s[0], t);
    }
  }

  /**
   * Two strictly ascending permutations of the same entries are equal, so
   * for a record with unique locations the sorted order does not depend on
   * the sorting algorithm.
   */
  lemma {:induction false} AscendingPermutationUnique(a: seq<Location>, b: seq<Location>)
    requires multiset(a) == multiset(b)
    requires StrictlyAscending(a) && StrictlyAscending(b)
    ensures a == b
  {
    assert |a| == |multiset(a)| == |multiset(b)| == |b|;
    if |a| > 0 {
      SameLeast(a, b);
      SameRest(a, b);
      AscendingPermutationUnique(a[1..], b[1..]);
      assert a == [a[0]] + a[1..] && b == [b[0]] + b[1..];
    }
  }

  /** Two strictly ascending permutations of the same entries start with the same entry. */
  lemma SameLeast(a: seq<Location>, b: seq<Location>)
    requires multiset(a) == multiset(b) && |a| > 0
    requires StrictlyAscending(a) && StrictlyAscending(b)
    ensures |b| > 0 && a[0] == b[0]
  {
    assert a[0] in multiset(b);
    var j :| 0 <= j < |b| && b[j] == a[0];
    assert b[0] in multiset(a);
    var i :| 0 <= i < |a| && a[i] == b[0];
    // a[0] is the least entry of both sequences, and so is b[0]
    assert j == 0;
  }

  /** Removing the same first entry from two permutations of each other leaves permutations of each other. */
  lemma SameRest(a: seq<Location>, b: seq<Location>)
    requires multiset(a) == multiset(b) && |a| > 0 && |b| > 0 && a[0] == b[0]
    ensures multiset(a[1..]) == multiset(b[1..])
  {
    assert a == [a[0]] + a[1..] && b == [b[0]] + b[1..];
    assert multiset(a) == multiset{a[0]} + multiset(a[1..]);
    assert multiset(b) == multiset{a[0]} + multiset(b[1..]);
    forall x
      ensures multiset(a[1..])[x] == multiset(b[1..])[x]
    {
      assert multiset(a)[x] == multiset(b)[x];
    }
  }

  // ---------------------------------------------------------------------------
  // Layout, offsets and stride

  /** Component counts of the attributes, in the same order. */
  function ItemSizes<F>(attrs: seq<BufferAttribute<F>>): seq<nat> {
    seq(|attrs|, k requires 0 <= k < |attrs| => attrs[k].itemSize)
  }

  ghost predicate AllSupported(sizes: seq<nat>) {
    forall k :: 0 <= k < |sizes| ==> 1 <= sizes[k] <= 4
  }

  /** Sum of component counts, folded from the left. */
  function Sum(s: seq<nat>): nat {
    if |s| == 0 then 0 else Sum(s[..|s| - 1]) + s[|s| - 1]
  }

  /** Byte offset of attribute `k` within one vertex record: the bytes of the attributes before it. */
  function Offset(sizes: seq<nat>, k: nat): nat
    requires k <= |sizes|
  {
    FLOAT_SIZE * Sum(sizes[..k])
  }

  /** The stride, as the `reduce` over the component counts computes it. */
  function Stride(sizes: seq<nat>): nat {
    if |sizes| == 0 then 0 else Stride(sizes[..|sizes| - 1]) + sizes[|sizes| - 1] * FLOAT_SIZE
  }

  /** The format name `float32x<itemSize>` for an item size in 1..4. */
  function Format(itemSize: nat): (f: string)
    requires 1 <= itemSize <= 4
    ensures |f| == 9 && f[..8] == "float32x"
    ensures '1' <= f[8] <= '4' && f[8] as int - '0' as int == itemSize
  {
    "float32x" + [('0' as int + itemSize) as char]
  }

  /** Distinct item sizes get distinct format names. */
  lemma FormatInjective(m: nat, n: nat)
    requires 1 <= m <= 4 && 1 <= n <= 4
    ensures Format(m) == Format(n) <==> m == n
  {
    if Format(m) == Format(n) {
      assert Format(m)[8] == Format(n)[8];
    }
  }

  /** The layout as a closed form: entry `k` describes the `k`-th sorted attribute. */
  function Layout(sorted: seq<Location>, sizes: seq<nat>): seq<VertexAttribute>
    requires |sizes| == |sorted| && AllSupported(sizes)
  {
    seq(|sorted|, k requires 0 <= k < |sorted| =>
      VertexAttribute(sorted[k].shaderLocation, Offset(sizes, k), Format(sizes[k])))
  }

  /** Appending one more attribute moves the running offset past its bytes. */
  lemma OffsetStep(sizes: seq<nat>, k: nat)
    requires k < |sizes|
    ensures Offset(sizes, k + 1) == Offset(sizes, k) + FLOAT_SIZE * sizes[k]
  {
    assert sizes[..k + 1][..k] == sizes[..k];
  }

  /** The first attribute starts the record. */
  lemma FirstOffsetZero(sizes: seq<nat>)
    requires |sizes| > 0
    ensures Offset(sizes, 0) == 0
  {
  }

  /** With every item size at least 1, offsets strictly increase along the layout. */
  lemma {:induction false} OffsetsIncreasing(sizes: seq<nat>, k: nat, l: nat)
    requires AllSupported(sizes)
    requires k < l <= |sizes|
    ensures Offset(sizes, k) + FLOAT_SIZE * sizes[k] <= Offset(sizes, l)
    ensures Offset(sizes, k) < Offset(sizes, l)
    decreases l - k
  {
    OffsetStep(sizes, k);
    if k + 1 < l {
      OffsetsIncreasing(sizes, k + 1, l);
    }
  }

  /** The folded stride is the byte size of every attribute together. */
  lemma {:induction false} StrideIsTotal(sizes: seq<nat>)
    ensures Stride(sizes) == Offset(sizes, |sizes|) == FLOAT_SIZE * Sum(sizes)
  {
    assert sizes[..|sizes|] == sizes;
    if |sizes| > 0 {
      var init := sizes[..|sizes| - 1];
      StrideIsTotal(init);
      assert init[..|init|] == init;
    }
  }

  /** The stride ends exactly where the last attribute ends. */
  lemma StrideAfterLast(sizes: seq<nat>)
    requires |sizes| > 0
    ensures Stride(sizes) == Offset(sizes, |sizes| - 1) + FLOAT_SIZE * sizes[|sizes| - 1]
  {
    StrideIsTotal(sizes);
    OffsetStep(sizes, |sizes| - 1);
  }

  /** Every attribute's bytes lie inside the record and never overlap a later attribute's. */
  lemma AttributesFitRecord(sizes: seq<nat>, k: nat)
    requires AllSupported(sizes)
    requires k < |sizes|
    ensures Offset(sizes, k) + FLOAT_SIZE * sizes[k] <= Stride(sizes)
    ensures forall l :: k < l < |sizes| ==> Offset(sizes, k) + FLOAT_SIZE * sizes[k] <= Offset(sizes, l)
  {
    StrideIsTotal(sizes);
    OffsetsIncreasing(sizes, k, |sizes|);
    forall l | k < l < |sizes|
      ensures Offset(sizes, k) + FLOAT_SIZE * sizes[k] <= Offset(sizes, l)
    {
      OffsetsIncreasing(sizes, k, l);
    }
  }

  // ---------------------------------------------------------------------------
  // Interleaving

  /** Every attribute holds exactly `n` vertices. */
  ghost predicate HasVertices<F>(attrs: seq<BufferAttribute<F>>, n: nat) {
    forall k :: 0 <= k < |attrs| ==> |attrs[k].values| == n * attrs[k].itemSize
  }

  /** `array.slice(i * itemSize, (i + 1) * itemSize)`: the components of vertex `i`. */
  function Components<F>(a: BufferAttribute<F>, i: nat): (r: seq<F>)
    requires (i + 1) * a.itemSize <= |a.values|
    ensures |r| == a.itemSize
  {
    a.values[i * a.itemSize .. (i + 1) * a.itemSize]
  }

  /** The inner `flatMap`: vertex `i`'s components from every attribute, in order. */
  function Record<F>(attrs: seq<BufferAttribute<F>>, n: nat, i: nat): seq<F>
    requires HasVertices(attrs, n) && i < n
  {
    if |attrs| == 0 then []
    else
      var last := attrs[|attrs| - 1];
      MulMonotone(i + 1, n, last.itemSize);
      Record(attrs[..|attrs| - 1], n, i) + Components(last, i)
  }

  /** Concatenation of a sequence of records, in order. */
  function Flatten<T>(rs: seq<seq<T>>): seq<T> {
    if |rs| == 0 then [] else Flatten(rs[..|rs| - 1]) + rs[|rs| - 1]
  }

  /** The records of vertices 0 .. m-1. */
  function Records<F>(attrs: seq<BufferAttribute<F>>, n: nat, m: nat): seq<seq<F>>
    requires HasVertices(attrs, n) && m <= n
  {
    seq(m, i requires 0 <= i < m => Record(attrs, n, i))
  }

  /** The outer `flatMap`: the records of vertices 0 .. m-1, in vertex order. */
  function Interleave<F>(attrs: seq<BufferAttribute<F>>, n: nat, m: nat): seq<F>
    requires HasVertices(attrs, n) && m <= n
  {
    Flatten(Records(attrs, n, m))
  }

  /** A record is as long as the stride counts floats. */
  lemma {:induction false} RecordLength<F>(attrs: seq<BufferAttribute<F>>, n: nat, i: nat)
    requires HasVertices(attrs, n) && i < n
    ensures |Record(attrs, n, i)| == Sum(ItemSizes(attrs))
  {
    if |attrs| > 0 {
      var init := attrs[..|attrs| - 1];
      RecordLength(init, n, i);
      assert ItemSizes(attrs)[..|attrs| - 1] == ItemSizes(init);
    }
  }

  /** Within record `i`, attribute `k`'s components start at its offset (counted in floats). */
  lemma {:induction false} RecordAt<F>(attrs: seq<BufferAttribute<F>>, n: nat, i: nat, k: nat, j: nat)
    requires HasVertices(attrs, n) && i < n
    requires k < |attrs| && j < attrs[k].itemSize
    ensures Sum(ItemSizes(attrs)[..k]) + j < |Record(attrs, n, i)|
    ensures i * attrs[k].itemSize + j < |attrs[k].values|
    ensures Record(attrs, n, i)[Sum(ItemSizes(attrs)[..k]) + j] == attrs[k].values[i * attrs[k].itemSize + j]
  {
    var init := attrs[..|attrs| - 1];
    var sizes := ItemSizes(attrs);
    MulMonotone(i + 1, n, attrs[k].itemSize);
    MulSucc(i, attrs[k].itemSize);
    var left := Record(init, n, i);
    var right := Components(attrs[|attrs| - 1], i);
    assert Record(attrs, n, i) == left + right;
    RecordLength(init, n, i);
    assert sizes[..|attrs| - 1] == ItemSizes(init);
    if k == |attrs| - 1 {
      assert sizes[..k] == ItemSizes(init);
      assert (left + right)[|left| + j] == right[j];
    } else {
      RecordAt(init, n, i, k, j);
      var p := Sum(ItemSizes(init)[..k]) + j;
      assert sizes[..k] == ItemSizes(init)[..k];
      assert (left + right)[p] == left[p];
    }
  }

  lemma MulSucc(m: nat, w: nat)
    ensures (m + 1) * w == m * w + w
  {
  }

  /** Every record has length `w`. */
  ghost predicate Uniform<T>(rs: seq<seq<T>>, w: nat) {
    forall k :: 0 <= k < |rs| ==> |rs[k]| == w
  }

  /** Records of length `w` flatten to `w` elements each. */
  lemma {:induction false} FlattenLength<T>(rs: seq<seq<T>>, w: nat)
    requires Uniform(rs, w)
    ensures |Flatten(rs)| == |rs| * w
  {
    if |rs| > 0 {
      FlattenLength(rs[..|rs| - 1], w);
      MulSucc(|rs| - 1, w);
    }
  }

  /** Element `p` of record `i` sits at `i * w + p` of the flattened records. */
  lemma {:induction false} FlattenAt<T>(rs: seq<seq<T>>, w: nat, i: nat, p: nat)
    requires Uniform(rs, w) && i < |rs| && p < w
    ensures i * w + p < |Flatten(rs)|
    ensures Flatten(rs)[i * w + p] == rs[i][p]
  {
    var init := rs[..|rs| - 1];
    FlattenLength(init, w);
    FlattenLength(rs, w);
    if i < |rs| - 1 {
      FlattenAt(init, w, i, p);
      assert (Flatten(init) + rs[|rs| - 1])[i * w + p] == Flatten(init)[i * w + p];
    } else {
      assert i * w == |Flatten(init)|;
    }
  }

  /** Every record of the first `m` vertices has the stride's length. */
  lemma RecordsUniform<F>(attrs: seq<BufferAttribute<F>>, n: nat, m: nat)
    requires HasVertices(attrs, n) && m <= n
    ensures Uniform(Records(attrs, n, m), Sum(ItemSizes(attrs)))
  {
    forall i | 0 <= i < m
      ensures |Records(attrs, n, m)[i]| == Sum(ItemSizes(attrs))
    {
      assert Records(attrs, n, m)[i] == Record(attrs, n, i);
      RecordLength(attrs, n, i);
    }
  }

  /** The flat buffer holds `m` records. */
  lemma InterleaveLength<F>(attrs: seq<BufferAttribute<F>>, n: nat, m: nat)
    requires HasVertices(attrs, n) && m <= n
    ensures |Interleave(attrs, n, m)| == m * Sum(ItemSizes(attrs))
  {
    RecordsUniform(attrs, n, m);
    FlattenLength(Records(attrs, n, m), Sum(ItemSizes(attrs)));
  }

  /** Record `i` of the flat buffer starts at float `i * recordLength`. */
  lemma InterleaveAt<F>(attrs: seq<BufferAttribute<F>>, n: nat, m: nat, i: nat, p: nat)
    requires HasVertices(attrs, n) && m <= n
    requires i < m && p < Sum(ItemSizes(attrs))
    ensures p < |Record(attrs, n, i)|
    ensures i * Sum(ItemSizes(attrs)) + p < |Interleave(attrs, n, m)|
    ensures Interleave(attrs, n, m)[i * Sum(ItemSizes(attrs)) + p] == Record(attrs, n, i)[p]
  {
    RecordsUniform(attrs, n, m);
    assert Records(attrs, n, m)[i] == Record(attrs, n, i);
    FlattenAt(Records(attrs, n, m), Sum(ItemSizes(attrs)), i, p);
  }

  // ---------------------------------------------------------------------------
  // The packer

  /**
   * What the packer needs of a geometry that has an index list: a non-empty
   * location record, every named attribute present with
   * an item size in 1..4, and every named attribute holding as many vertices
   * as the first one names.
   */
  ghost predicate WellFormed<F>(geometry: Geometry<F>, locs: seq<Location>) {
    && |locs| > 0
    && locs[0].name in geometry.attributes
    && (forall e | e in locs ::
          && e.name in geometry.attributes
          && 1 <= geometry.attributes[e.name].itemSize <= 4
          && geometry.attributes[e.name].count == geometry.attributes[locs[0].name].count
          && |geometry.attributes[e.name].values| == geometry.attributes[e.name].count * geometry.attributes[e.name].itemSize)
  }

  /** The vertex count every named attribute shares. */
  ghost function CommonCount<F>(geometry: Geometry<F>, locs: seq<Location>): nat
    requires WellFormed(geometry, locs)
  {
    geometry.attributes[locs[0].name].count
  }

  /** Every sorted entry is an entry of the record. */
  lemma SortedEntriesFromRecord(locs: seq<Location>)
    ensures |SortByLocation(locs)| == |locs|
    ensures forall k :: 0 <= k < |locs| ==> SortByLocation(locs)[k] in locs
  {
    var sorted := SortByLocation(locs);
    assert |sorted| == |multiset(sorted)| == |locs|;
    forall k | 0 <= k < |locs|
      ensures sorted[k] in locs
    {
      assert sorted[k] in multiset(locs);
    }
  }

  /** The geometry's attributes in sorted location order. */
  function SortedAttributes<F>(geometry: Geometry<F>, locs: seq<Location>): (attrs: seq<BufferAttribute<F>>)
    requires WellFormed(geometry, locs)
    ensures |attrs| == |SortByLocation(locs)| == |locs|
    ensures forall k :: 0 <= k < |attrs| ==>
      SortByLocation(locs)[k].name in geometry.attributes && attrs[k] == geometry.attributes[SortByLocation(locs)[k].name]
    ensures AllSupported(ItemSizes(attrs))
    ensures HasVertices(attrs, CommonCount(geometry, locs))
    ensures forall k :: 0 <= k < |attrs| ==> attrs[k].count == CommonCount(geometry, locs)
  {
    var sorted := SortByLocation(locs);
    SortedEntriesFromRecord(locs);
    seq(|locs|, k requires 0 <= k < |locs| => geometry.attributes[sorted[k].name])
  }

  /** The vertex count the packer reads: the `count` of the first sorted attribute. */
  function VertexCount<F>(geometry: Geometry<F>, locs: seq<Location>): (n: nat)
    requires WellFormed(geometry, locs)
    ensures n == CommonCount(geometry, locs)
  {
    SortedAttributes(geometry, locs)[0].count
  }

  /** The item sizes of the sorted attributes. */
  function SortedItemSizes<F>(geometry: Geometry<F>, locs: seq<Location>): (sizes: seq<nat>)
    requires WellFormed(geometry, locs)
    ensures |sizes| == |locs| && AllSupported(sizes)
    ensures forall k :: 0 <= k < |locs| ==> sizes[k] == SortedAttributes(geometry, locs)[k].itemSize
  {
    ItemSizes(SortedAttributes(geometry, locs))
  }

  /** The layout the packer produces for a well-formed geometry. */
  function PackedLayout<F>(geometry: Geometry<F>, locs: seq<Location>): (layout: seq<VertexAttribute>)
    requires WellFormed(geometry, locs)
    ensures |layout| == |locs|
  {
    Layout(SortByLocation(locs), SortedItemSizes(geometry, locs))
  }

  /** The interleaved vertex data the packer produces for a well-formed geometry. */
  function PackedVertexData<F>(geometry: Geometry<F>, locs: seq<Location>): seq<F>
    requires WellFormed(geometry, locs)
  {
    var n := VertexCount(geometry, locs);
    Interleave(SortedAttributes(geometry, locs), n, n)
  }

  /** The packer as a function of its inputs. */
  function Pack<F>(geometry: Geometry<F>, locs: seq<Location>): (r: Result<VertexBuffer<F>, PackError>)
    requires geometry.index.Some? ==> WellFormed(geometry, locs)
  {
    if geometry.index.None? then Failure(NoIndex)
    else
      Success(VertexBuffer(
        PackedLayout(geometry, locs),
        Stride(SortedItemSizes(geometry, locs)),
        PackedVertexData(geometry, locs),
        geometry.index.value))
  }

  /**
   * The only error is the missing index list; otherwise the indices come back
   * unchanged.
   */
  lemma PackFailsOnlyWithoutIndex<F>(geometry: Geometry<F>, locs: seq<Location>)
    requires geometry.index.Some? ==> WellFormed(geometry, locs)
    ensures Pack(geometry, locs) == Failure(NoIndex) <==> geometry.index.None?
    ensures Pack(geometry, locs).Success? ==> Pack(geometry, locs).value.indices == geometry.index.value
    ensures geometry.index.Some? ==> Pack(geometry, locs) == Success(VertexBuffer(
      PackedLayout(geometry, locs), Stride(SortedItemSizes(geometry, locs)), PackedVertexData(geometry, locs), geometry.index.value))
  {
  }

  /** The layout's locations ascend. */
  lemma PackLayoutAscending<F>(geometry: Geometry<F>, locs: seq<Location>)
    requires WellFormed(geometry, locs)
    ensures var layout := PackedLayout(geometry, locs);
      && |layout| == |locs|
      && forall i, j :: 0 <= i < j < |layout| ==> layout[i].shaderLocation <= layout[j].shaderLocation
  {
    var sorted := SortByLocation(locs);
    var layout := PackedLayout(geometry, locs);
    assert forall k :: 0 <= k < |layout| ==> layout[k].shaderLocation == sorted[k].shaderLocation;
  }

  /** With unique record locations the layout's locations strictly ascend. */
  lemma PackLayoutStrictWhenUnique<F>(geometry: Geometry<F>, locs: seq<Location>)
    requires WellFormed(geometry, locs) && UniqueLocations(locs)
    ensures var layout := PackedLayout(geometry, locs);
      forall i, j :: 0 <= i < j < |layout| ==> layout[i].shaderLocation < layout[j].shaderLocation
  {
    var sorted := SortByLocation(locs);
    var layout := PackedLayout(geometry, locs);
    SortStrictWhenUnique(locs);
    assert forall k :: 0 <= k < |layout| ==> layout[k].shaderLocation == sorted[k].shaderLocation;
  }

  /**
   * The layout lists the location of every entry of the record; with
   * unique locations, PackLayoutStrictWhenUnique and PackLayoutFromRecord,
   * each exactly once.
   */
  lemma PackLayoutCoversRecord<F>(geometry: Geometry<F>, locs: seq<Location>)
    requires WellFormed(geometry, locs)
    ensures var layout := PackedLayout(geometry, locs);
      forall e | e in locs :: exists k :: 0 <= k < |layout| && layout[k].shaderLocation == e.shaderLocation
  {
    var sorted := SortByLocation(locs);
    var layout := PackedLayout(geometry, locs);
    forall e | e in locs
      ensures exists k :: 0 <= k < |layout| && layout[k].shaderLocation == e.shaderLocation
    {
      assert e in multiset(sorted);
      var k :| 0 <= k < |sorted| && sorted[k] == e;
      assert layout[k].shaderLocation == e.shaderLocation;
    }
  }

  /** Every location in the layout is the location of an entry of the record. */
  lemma PackLayoutFromRecord<F>(geometry: Geometry<F>, locs: seq<Location>)
    requires WellFormed(geometry, locs)
    ensures var layout := PackedLayout(geometry, locs);
      forall k :: 0 <= k < |layout| ==> exists e :: e in locs && layout[k].shaderLocation == e.shaderLocation
  {
    var sorted := SortByLocation(locs);
    var layout := PackedLayout(geometry, locs);
    SortedEntriesFromRecord(locs);
    forall k | 0 <= k < |layout|
      ensures exists e :: e in locs && layout[k].shaderLocation == e.shaderLocation
    {
      var e := sorted[k];
      assert e in locs && layout[k].shaderLocation == e.shaderLocation;
    }
  }

  /** Each layout entry's format names its attribute's item size, and the first entry starts the record. */
  lemma PackLayoutFormats<F>(geometry: Geometry<F>, locs: seq<Location>)
    requires WellFormed(geometry, locs)
    ensures var layout := PackedLayout(geometry, locs);
      var sizes := SortedItemSizes(geometry, locs);
      && |layout| == |sizes| == |locs|
      && layout[0].offset == 0
      && (forall k :: 0 <= k < |layout| ==> layout[k].format == Format(sizes[k]))
  {
  }

  /**
   * Entry `k` sits after the bytes of entries 0 .. k-1, each entry starts
   * where the previous one ends, and offsets strictly increase.
   */
  lemma PackLayoutOffsets<F>(geometry: Geometry<F>, locs: seq<Location>)
    requires WellFormed(geometry, locs)
    ensures var layout := PackedLayout(geometry, locs);
      var sizes := SortedItemSizes(geometry, locs);
      && |layout| == |sizes|
      && (forall k :: 0 <= k < |layout| ==> layout[k].offset == FLOAT_SIZE * Sum(sizes[..k]))
      && (forall k :: 0 <= k < |layout| - 1 ==> layout[k + 1].offset == layout[k].offset + FLOAT_SIZE * sizes[k])
      && (forall k, l :: 0 <= k < l < |layout| ==> layout[k].offset < layout[l].offset)
  {
    var sizes := SortedItemSizes(geometry, locs);
    var layout := PackedLayout(geometry, locs);
    forall k | 0 <= k < |layout| - 1
      ensures layout[k + 1].offset == layout[k].offset + FLOAT_SIZE * sizes[k]
    {
      OffsetStep(sizes, k);
    }
    forall k, l | 0 <= k < l < |layout|
      ensures layout[k].offset < layout[l].offset
    {
      OffsetsIncreasing(sizes, k, l);
    }
  }

  /**
   * The stride is four bytes per component of every attribute, and it ends
   * exactly where the last attribute ends.
   */
  lemma PackStride<F>(geometry: Geometry<F>, locs: seq<Location>)
    requires WellFormed(geometry, locs)
    ensures var layout := PackedLayout(geometry, locs);
      var sizes := SortedItemSizes(geometry, locs);
      var stride := Stride(sizes);
      && |layout| == |sizes|
      && stride == FLOAT_SIZE * Sum(sizes)
      && stride == layout[|layout| - 1].offset + FLOAT_SIZE * sizes[|sizes| - 1]
  {
    var sizes := SortedItemSizes(geometry, locs);
    StrideIsTotal(sizes);
    StrideAfterLast(sizes);
  }

  /** The flat vertex buffer holds one record of `stride / 4` floats per vertex. */
  lemma PackVertexDataLength<F>(geometry: Geometry<F>, locs: seq<Location>)
    requires WellFormed(geometry, locs)
    ensures var stride := Stride(SortedItemSizes(geometry, locs));
      && stride % FLOAT_SIZE == 0
      && |PackedVertexData(geometry, locs)| == CommonCount(geometry, locs) * (stride / FLOAT_SIZE)
  {
    var attrs := SortedAttributes(geometry, locs);
    var sizes := SortedItemSizes(geometry, locs);
    var n := VertexCount(geometry, locs);
    StrideIsTotal(sizes);
    InterleaveLength(attrs, n, n);
    assert Stride(sizes) / FLOAT_SIZE == Sum(sizes);
  }

  /** Where component `j` of the attribute at byte `offset` of vertex `i` sits, counted in floats. */
  function FloatPosition(stride: nat, i: nat, offset: nat, j: nat): nat {
    i * (stride / FLOAT_SIZE) + offset / FLOAT_SIZE + j
  }

  /** Where component `j` of vertex `i` sits in an attribute's own flat array. */
  function ComponentIndex(i: nat, itemSize: nat, j: nat): nat {
    i * itemSize + j
  }

  /**
   * Component `j` of attribute `k` for vertex `i` sits in the interleaved
   * data at float `i * (stride / 4) + offset_k / 4 + j`.
   */
  lemma InterleaveComponentAt<F>(attrs: seq<BufferAttribute<F>>, n: nat, i: nat, k: nat, j: nat)
    requires HasVertices(attrs, n) && i < n
    requires k < |attrs| && j < attrs[k].itemSize
    ensures var sizes := ItemSizes(attrs);
      var p := FloatPosition(Stride(sizes), i, Offset(sizes, k), j);
      var q := ComponentIndex(i, attrs[k].itemSize, j);
      && p < |Interleave(attrs, n, n)|
      && q < |attrs[k].values|
      && Interleave(attrs, n, n)[p] == attrs[k].values[q]
  {
    var sizes := ItemSizes(attrs);
    var w := Sum(sizes);
    var p := Sum(sizes[..k]) + j;
    assert FloatPosition(Stride(sizes), i, Offset(sizes, k), j) == i * w + p by {
      StrideIsTotal(sizes);
    }
    RecordAt(attrs, n, i, k, j);
    RecordLength(attrs, n, i);
    InterleaveAt(attrs, n, n, i, p);
  }

  /**
   * Interleave correctness: component `j` of sorted attribute `k` for vertex
   * `i` sits at float `i * (stride / 4) + offset_k / 4 + j` of the vertex
   * data and is the attribute's value at `i * itemSize_k + j`; vertices keep
   * their order.
   */
  lemma PackVertexDataAt<F>(geometry: Geometry<F>, locs: seq<Location>, i: nat, k: nat, j: nat)
    requires WellFormed(geometry, locs)
    requires i < CommonCount(geometry, locs)
    requires k < |locs| && j < SortedAttributes(geometry, locs)[k].itemSize
    ensures var data := PackedVertexData(geometry, locs);
      var a := SortedAttributes(geometry, locs)[k];
      var p := FloatPosition(Stride(SortedItemSizes(geometry, locs)), i, PackedLayout(geometry, locs)[k].offset, j);
      var q := ComponentIndex(i, a.itemSize, j);
      && p < |data|
      && q < |a.values|
      && data[p] == a.values[q]
  {
    var attrs := SortedAttributes(geometry, locs);
    var n := VertexCount(geometry, locs);
    assert SortedItemSizes(geometry, locs) == ItemSizes(attrs);
    assert PackedLayout(geometry, locs)[k].offset == Offset(ItemSizes(attrs), k);
    assert PackedVertexData(geometry, locs) == Interleave(attrs, n, n);
    InterleaveComponentAt(attrs, n, i, k, j);
  }

  /**
   * The cube pages' record `{ position: 0, uv: 1 }` sorts to position then
   * uv, whichever order its keys come in.
   */
  lemma CubePageSort()
    ensures SortByLocation([Location("position", 0), Location("uv", 1)]) == [Location("position", 0), Location("uv", 1)]
    ensures SortByLocation([Location("uv", 1), Location("position", 0)]) == [Location("position", 0), Location("uv", 1)]
  {
    var position := Location("position", 0);
    var uv := Location("uv", 1);
    assert [position, uv][1..] == [uv] && [uv, position][1..] == [position];
    assert [uv][1..] == [] && [position][1..] == [];
    assert SortByLocation([uv]) == Insert(uv, []) == [uv];
    assert SortByLocation([position]) == Insert(position, []) == [position];
    assert Insert(position, [uv]) == [position, uv];
    assert [position][1..] == [];
    assert Insert(uv, [position]) == [position] + Insert(uv, []);
  }

  /**
   * Over a box geometry (three position and two uv components per vertex)
   * that order puts position at byte 0 as float32x3 and uv at byte 12 as
   * float32x2, in a 20-byte stride.
   */
  lemma CubePageLayout()
    ensures Layout([Location("position", 0), Location("uv", 1)], [3, 2])
      == [VertexAttribute(0, 0, "float32x3"), VertexAttribute(1, 12, "float32x2")]
    ensures Stride([3, 2]) == 20
  {
    assert [3, 2][..0] == [] && [3, 2][..1] == [3] && [3][..0] == [];
    assert Offset([3, 2], 1) == 12;
    assert Format(3) == "float32x3" && Format(2) == "float32x2";
    var layout := Layout([Location("position", 0), Location("uv", 1)], [3, 2]);
    assert layout[0] == VertexAttribute(0, 0, "float32x3");
    assert layout[1] == VertexAttribute(1, 12, "float32x2");
    assert [3, 2][..|[3, 2]| - 1] == [3];
    assert Stride([3]) == 12;
  }

  /**
   * Two four-component attributes at locations 0 and 1 get the layout the
   * uniform-rerender page writes by hand: offsets 0 and 16, float32x4 each,
   * stride 32.
   */
  lemma TwoVec4Layout()
    ensures Layout([Location("position", 0), Location("color", 1)], [4, 4])
      == [VertexAttribute(0, 0, "float32x4"), VertexAttribute(1, 16, "float32x4")]
    ensures Stride([4, 4]) == 32
  {
    assert [4, 4][..0] == [] && [4, 4][..1] == [4] && [4][..0] == [];
    assert Offset([4, 4], 1) == 16;
    assert Format(4) == "float32x4";
    var layout := Layout([Location("position", 0), Location("color", 1)], [4, 4]);
    assert layout[0] == VertexAttribute(0, 0, "float32x4");
    assert layout[1] == VertexAttribute(1, 16, "float32x4");
    assert [4, 4][..|[4, 4]| - 1] == [4];
    assert Stride([4]) == 16;
  }

  /**
   * The `map` over the sorted names with its running `currentOffset`: one pass
   * that builds the same layout as the closed form. `sizes` names the item
   * sizes the pass looks up.
   */
  method BuildLayout<F>(geometry: Geometry<F>, attributes: seq<Location>, ghost sizes: seq<nat>)
    returns (attrBufferLayout: seq<VertexAttribute>)
    requires |sizes| == |attributes| && AllSupported(sizes)
    requires forall k :: 0 <= k < |attributes| ==>
      attributes[k].name in geometry.attributes && geometry.attributes[attributes[k].name].itemSize == sizes[k]
    ensures attrBufferLayout == Layout(attributes, sizes)
  {
    var currentOffset := 0;
    attrBufferLayout := [];
    for i := 0 to |attributes|
      invariant |attrBufferLayout| == i
      invariant currentOffset == Offset(sizes, i)
      invariant forall k :: 0 <= k < i ==>
        attrBufferLayout[k] == VertexAttribute(attributes[k].shaderLocation, Offset(sizes, k), Format(sizes[k]))
    {
      var itemSize := geometry.attributes[attributes[i].name].itemSize;
      attrBufferLayout := attrBufferLayout + [VertexAttribute(attributes[i].shaderLocation, currentOffset, Format(itemSize))];
      OffsetStep(sizes, i);
      currentOffset := currentOffset + FLOAT_SIZE * itemSize;
    }
  }

  /** The packer: the result equals `Pack`. */
  method CreateWebgpuVertexBuffer<F>(geometry: Geometry<F>, attributeLocations: seq<Location>)
    returns (r: Result<VertexBuffer<F>, PackError>)
    requires geometry.index.Some? ==> WellFormed(geometry, attributeLocations)
    ensures r == Pack(geometry, attributeLocations)
  {
    if geometry.index.None? {
      return Failure(NoIndex);
    }
    var attributes := SortByLocation(attributeLocations);
    var attrBufferLayout := BuildLayout(geometry, attributes, SortedItemSizes(geometry, attributeLocations));
    var attrBufferStride := Stride(SortedItemSizes(geometry, attributeLocations));
    var vertexData := PackedVertexData(geometry, attributeLocations);
    r := Success(VertexBuffer(attrBufferLayout, attrBufferStride, vertexData, geometry.index.value));
  }
}
