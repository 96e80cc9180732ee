/** The attention state a pipeline stage needs at a given context length, and the largest context
    its device can hold. Byte counts are unbounded here. */
module AttentionMemory {
  import opened Wrappers
  import Modular
  import Compressor

  datatype Kind = Sliding | CSA | HCA

  datatype LayerSpec = LayerSpec(kind: Kind, ratio: int, headDim: int, slidingWindow: int,
                                 indexHeads: int, indexHeadDim: int, indexTopk: int)
  {
    /** What the layout refuses. Nothing in it depends on the context length. */
    predicate Valid() {
      && headDim > 0 && slidingWindow > 0
      && (kind.Sliding? ==> ratio == 0)
      && (kind.CSA? ==> ratio == 4)
      && (kind.HCA? ==> ratio == 128)
      && (kind.CSA? ==> indexHeads > 0 && indexHeadDim > 0 && indexTopk > 0)
    }
  }

  datatype Layout = Layout(localCapacity: nat, headDim: nat, ratio: nat, compressedCapacity: nat,
                           partialCapacity: nat, width: nat, indexHeads: nat, indexHeadDim: nat, indexTopk: nat,
                           indexerPartialCapacity: nat, indexerWidth: nat)
  {
    function LocalVector(): nat { Product(localCapacity, headDim * 2) }
    function LocalCache(): nat { LocalVector() * 2 }
    function LocalMetadata(): nat { Product(localCapacity, 8) }
    function CompressedCache(): nat { Product(compressedCapacity, headDim * 2) * 2 }
    function CompressedMetadata(): nat { Product(compressedCapacity, 8) }
    function CompressorState(): nat { Product(partialCapacity, width * 4) * 2 + Product(partialCapacity, 8) }
    function UsesIndexer(): bool { ratio == 4 }
    function IndexerCache(): nat {
      if UsesIndexer() then Product(compressedCapacity, indexHeadDim * 2) + Product(compressedCapacity, 8) else 0
    }
    function IndexerWorkspace(): nat {
      if UsesIndexer() then
        Product(indexerPartialCapacity, indexerWidth * 4) * 2 + Product(indexerPartialCapacity, 8)
        + Product(indexHeads, indexHeadDim * 2) + Product(indexHeads, 4)
        + Product(compressedCapacity, 4) + Product(indexTopk, 4)
      else 0
    }
    function Total(): nat {
      (LocalCache() + LocalMetadata()) + (CompressedCache() + CompressedMetadata())
      + CompressorState() + IndexerCache() + IndexerWorkspace()
    }
  }

  function Product(a: nat, b: nat): (r: nat)
    ensures r == a * b
  {
    Modular.MulSign(a, b);
    a * b
  }

  lemma ProductGrows(a: nat, b: nat, unit: nat)
    requires a <= b
    ensures Product(a, unit) <= Product(b, unit)
  {
    Modular.MulSign(b - a, unit);
    assert b * unit == a * unit + (b - a) * unit;
  }

  function Smaller(a: nat, b: nat): nat { if a < b then a else b }

  /** `from_spec`: refused at context 0 or for a spec whose ratio does not fit its kind. */
  function FromSpec(spec: LayerSpec, context: nat): Option<Layout> {
    if context == 0 || !spec.Valid() then None
    else
      var local := Smaller(context, spec.slidingWindow);
      if spec.ratio == 0 then
        Some(Layout(local, spec.headDim, 0, 0, 0, 0, Nat(spec.indexHeads), Nat(spec.indexHeadDim), Nat(spec.indexTopk), 0, 0))
      else
        var coefficient := Compressor.Coefficient(spec.ratio);
        var partial := Compressor.PartialCapacity(spec.ratio);
        Some(Layout(local, spec.headDim, spec.ratio, Compressor.CompressedCapacity(context, spec.ratio),
                    partial, Product(coefficient, spec.headDim),
                    Nat(spec.indexHeads), Nat(spec.indexHeadDim), Nat(spec.indexTopk),
                    if spec.kind.CSA? then partial else 0,
                    if spec.kind.CSA? then Product(coefficient, spec.indexHeadDim) else 0))
  }

  /** What is refused, and nothing else: no context, no head, no window, a ratio that is not the
      kind's own (0, 4 or 128), or an indexer without heads, width or picks. */
  lemma RefusedExactly(spec: LayerSpec, context: nat)
    ensures FromSpec(spec, context) == None <==>
      || context == 0 || spec.headDim <= 0 || spec.slidingWindow <= 0
      || spec.ratio != (match spec.kind case Sliding => 0 case CSA => 4 case HCA => 128)
      || (spec.kind == CSA && (spec.indexHeads <= 0 || spec.indexHeadDim <= 0 || spec.indexTopk <= 0))
  {
  }

  /** A dimension no consumer reads when it is not positive. */
  function Nat(x: int): nat { if x < 0 then 0 else x }

  datatype Memory = Memory(localKv: nat, compressedKv: nat, compressorState: nat, indexerState: nat,
                           metadata: nat, layerState: nat, rope: nat)
  {
    function Total(): nat { layerState + rope }
  }

  ghost predicate AllValid(specs: seq<LayerSpec>) {
    forall i :: 0 <= i < |specs| ==> specs[i].Valid()
  }

  /** The bytes of the first `n` layers at a context. */
  ghost function StateBytes(specs: seq<LayerSpec>, n: nat, context: nat): nat
    requires AllValid(specs) && n <= |specs| && context > 0
  {
    if n == 0 then 0 else StateBytes(specs, n - 1, context) + FromSpec(specs[n - 1], context).value.Total()
  }

  ghost function Bytes(specs: seq<LayerSpec>, ropeHalf: nat, context: nat): nat
    requires AllValid(specs) && context > 0
  {
    StateBytes(specs, |specs|, context) + Product(context, ropeHalf * 16)
  }

  // -- What each category is, in rows times bytes per row ------------------------------------------

  datatype Category = LocalKv | CompressedKv | CompressorState | IndexerState | Metadata

  /** Keys and values are two-byte rows of the head; partial rows are pairs of four-byte rows; every
      row of a cache or a ring has an eight-byte position. A layer of ratio 4 keeps eight double
      partial rows and an indexer, one of ratio 128 keeps 128 single ones. */
  ghost function CategoryBytes(cat: Category, spec: LayerSpec, context: nat): int
    requires spec.Valid()
  {
    var (hd, ihd) := (spec.headDim, spec.indexHeadDim);
    var local := if context < spec.slidingWindow then context else spec.slidingWindow;
    var entries := if spec.kind.Sliding? then 0 else Compressor.CompressedCapacity(context, spec.ratio);
    match cat
    case LocalKv => local * (2 * (2 * hd))
    case CompressedKv => entries * (2 * (2 * hd))
    case CompressorState =>
      if spec.kind.CSA? then 8 * (2 * (4 * (2 * hd)) + 8)
      else if spec.kind.HCA? then 128 * (2 * (4 * hd) + 8)
      else 0
    case IndexerState =>
      if spec.kind.CSA? then
        entries * (2 * ihd + 8 + 4) + 8 * (2 * (4 * (2 * ihd)) + 8) + spec.indexHeads * (2 * ihd + 4) + 4 * spec.indexTopk
      else 0
    case Metadata => (local + entries) * 8
  }

  lemma LayoutLocal(spec: LayerSpec, context: nat)
    requires spec.Valid() && context > 0
    ensures var l := FromSpec(spec, context).value;
      l.LocalCache() == CategoryBytes(LocalKv, spec, context) && l.CompressedCache() == CategoryBytes(CompressedKv, spec, context)
  {
    var l := FromSpec(spec, context).value;
    assert l.LocalCache() == (l.localCapacity * (l.headDim * 2)) * 2;
    Regroup(l.localCapacity, l.headDim);
    Regroup(l.compressedCapacity, l.headDim);
  }

  lemma Regroup(rows: nat, hd: nat)
    ensures (rows * (hd * 2)) * 2 == rows * (2 * (2 * hd))
  {
  }

  lemma LayoutState(spec: LayerSpec, context: nat)
    requires spec.Valid() && context > 0
    ensures var l := FromSpec(spec, context).value;
      && l.CompressorState() == CategoryBytes(CompressorState, spec, context)
      && l.LocalMetadata() + l.CompressedMetadata() == CategoryBytes(Metadata, spec, context)
  {
  }

  lemma LayoutIndexer(spec: LayerSpec, context: nat)
    requires spec.Valid() && context > 0
    ensures var l := FromSpec(spec, context).value;
      l.IndexerCache() + l.IndexerWorkspace() == CategoryBytes(IndexerState, spec, context)
  {
    if spec.kind.CSA? {
      var l := FromSpec(spec, context).value;
      var (c, ihd, heads) := (l.compressedCapacity, l.indexHeadDim, l.indexHeads);
      assert c * (ihd * 2) + c * 8 + c * 4 == c * (2 * ihd + 8 + 4);
      assert heads * (ihd * 2) + heads * 4 == heads * (2 * ihd + 4);
      assert l.indexerPartialCapacity == 8 && l.indexerWidth == 2 * ihd;
    }
  }

  ghost function CategorySum(cat: Category, specs: seq<LayerSpec>, n: nat, context: nat): int
    requires n <= |specs| && forall i :: 0 <= i < n ==> specs[i].Valid()
  {
    if n == 0 then 0 else CategorySum(cat, specs, n - 1, context) + CategoryBytes(cat, specs[n - 1], context)
  }

  /** One layer's bytes, each added to its category. */
  function Plus(m: Memory, l: Layout): Memory {
    Memory(m.localKv + l.LocalCache(), m.compressedKv + l.CompressedCache(),
           m.compressorState + l.CompressorState(),
           m.indexerState + (l.IndexerCache() + l.IndexerWorkspace()),
           m.metadata + (l.LocalMetadata() + l.CompressedMetadata()),
           m.layerState + l.Total(), m.rope)
  }

  /** The first `n` layers are accounted for, every byte in exactly one category. */
  ghost predicate Accounts(m: Memory, specs: seq<LayerSpec>, n: nat, context: nat)
    requires n <= |specs| && (forall i :: 0 <= i < n ==> specs[i].Valid())
  {
    && m.localKv == CategorySum(LocalKv, specs, n, context)
    && m.compressedKv == CategorySum(CompressedKv, specs, n, context)
    && m.compressorState == CategorySum(CompressorState, specs, n, context)
    && m.indexerState == CategorySum(IndexerState, specs, n, context)
    && m.metadata == CategorySum(Metadata, specs, n, context)
    && m.layerState == m.localKv + m.compressedKv + m.compressorState + m.indexerState + m.metadata
  }

  lemma AccountsStep(m: Memory, specs: seq<LayerSpec>, n: nat, context: nat)
    requires n < |specs| && context > 0 && (forall i :: 0 <= i <= n ==> specs[i].Valid())
    requires Accounts(m, specs, n, context)
    ensures Accounts(Plus(m, FromSpec(specs[n], context).value), specs, n + 1, context)
  {
    hide CategoryBytes, FromSpec;
    assert specs[n].Valid();
    LayoutSome(specs[n], context);
    LayoutLocal(specs[n], context);
    LayoutState(specs[n], context);
    LayoutIndexer(specs[n], context);
  }

  lemma LayoutSome(spec: LayerSpec, context: nat)
    ensures FromSpec(spec, context).Some? <==> spec.Valid() && context > 0
  {
  }

  /** The stage's memory, layer by layer, category by category. */
  method StateMemory(specs: seq<LayerSpec>, ropeHalf: nat, context: nat) returns (r: Option<Memory>)
    ensures r.Some? <==> context > 0 && AllValid(specs)
    ensures r.Some? ==>
      && r.value.Total() == Bytes(specs, ropeHalf, context)
      && Accounts(r.value, specs, |specs|, context)
      && r.value.rope == context * (ropeHalf * 4 * 4)
  {
    hide CategoryBytes, FromSpec, Accounts, CategorySum;
    if context == 0 { return None; }
    var m := Memory(0, 0, 0, 0, 0, 0, 0);
    NothingAccounted(specs, context);
    for i := 0 to |specs|
      invariant forall k :: 0 <= k < i ==> specs[k].Valid()
      invariant AllValid(specs[..i]) && m.layerState == StateBytes(specs[..i], i, context)
      invariant Accounts(m, specs, i, context)
    {
      LayoutSome(specs[i], context);
      var layout := FromSpec(specs[i], context);
      if layout.None? { return None; }
      PrefixBytes(specs[..i], specs[i], context);
      AccountsStep(m, specs, i, context);
      assert specs[..i + 1] == specs[..i] + [specs[i]];
      m := Plus(m, layout.value);
    }
    assert specs[..|specs|] == specs;
    RopeAside(m, specs, context, Product(context, ropeHalf * 16));
    return Some(m.(rope := Product(context, ropeHalf * 16)));
  }

  lemma NothingAccounted(specs: seq<LayerSpec>, context: nat)
    ensures Accounts(Memory(0, 0, 0, 0, 0, 0, 0), specs, 0, context)
  {
  }

  lemma RopeAside(m: Memory, specs: seq<LayerSpec>, context: nat, rope: nat)
    requires AllValid(specs) && Accounts(m, specs, |specs|, context)
    ensures Accounts(m.(rope := rope), specs, |specs|, context)
  {
  }

  lemma {:induction false} SameBytes(specs: seq<LayerSpec>, more: seq<LayerSpec>, n: nat, context: nat)
    requires AllValid(specs) && AllValid(more) && context > 0
    requires n <= |specs| && n <= |more| && forall i :: 0 <= i < n ==> specs[i] == more[i]
    ensures StateBytes(specs, n, context) == StateBytes(more, n, context)
  {
    if n > 0 { SameBytes(specs, more, n - 1, context); }
  }

  lemma PrefixBytes(specs: seq<LayerSpec>, spec: LayerSpec, context: nat)
    requires AllValid(specs) && spec.Valid() && context > 0
    ensures AllValid(specs + [spec])
    ensures StateBytes(specs + [spec], |specs| + 1, context)
         == StateBytes(specs, |specs|, context) + FromSpec(spec, context).value.Total()
  {
    SameBytes(specs, specs + [spec], |specs|, context);
  }

  // -- Monotone in the context ------------------------------------------------------------------

  lemma CapacityGrows(a: nat, b: nat, ratio: nat)
    requires 0 < ratio && a <= b
    ensures Compressor.CompressedCapacity(a, ratio) <= Compressor.CompressedCapacity(b, ratio)
  {
    Modular.DivMonotone(a + ratio - 1, b + ratio - 1, ratio);
  }

  /** Two layouts that differ only in their two capacities. */
  lemma LayoutGrows(l: Layout, k: Layout)
    requires k == l.(localCapacity := k.localCapacity, compressedCapacity := k.compressedCapacity)
    requires l.localCapacity <= k.localCapacity && l.compressedCapacity <= k.compressedCapacity
    ensures l.Total() <= k.Total()
  {
    hide Product;
    ProductGrows(l.localCapacity, k.localCapacity, l.headDim * 2);
    ProductGrows(l.localCapacity, k.localCapacity, 8);
    ProductGrows(l.compressedCapacity, k.compressedCapacity, l.headDim * 2);
    ProductGrows(l.compressedCapacity, k.compressedCapacity, 8);
    ProductGrows(l.compressedCapacity, k.compressedCapacity, l.indexHeadDim * 2);
    ProductGrows(l.compressedCapacity, k.compressedCapacity, 4);
  }

  /** One layer never shrinks with the context, and is never free. */
  lemma LayerGrows(spec: LayerSpec, a: nat, b: nat)
    requires spec.Valid() && 0 < a <= b
    ensures 0 < FromSpec(spec, a).value.Total() <= FromSpec(spec, b).value.Total()
  {
    var l, k := FromSpec(spec, a).value, FromSpec(spec, b).value;
    if spec.ratio != 0 { CapacityGrows(a, b, spec.ratio); }
    LayoutGrows(l, k);
    ProductGrows(1, l.localCapacity, 8);
  }

  lemma {:induction false} StateGrows(specs: seq<LayerSpec>, n: nat, a: nat, b: nat)
    requires AllValid(specs) && n <= |specs| && 0 < a <= b
    ensures StateBytes(specs, n, a) <= StateBytes(specs, n, b)
    ensures 0 < n ==> 0 < StateBytes(specs, n, a)
  {
    if n > 0 {
      StateGrows(specs, n - 1, a, b);
      LayerGrows(specs[n - 1], a, b);
    }
  }

  /** For every mix of layers, more context never needs less memory. */
  lemma BytesGrow(specs: seq<LayerSpec>, ropeHalf: nat, a: nat, b: nat)
    requires AllValid(specs) && 0 < a <= b
    ensures Bytes(specs, ropeHalf, a) <= Bytes(specs, ropeHalf, b)
    ensures specs != [] || ropeHalf > 0 ==> 0 < Bytes(specs, ropeHalf, a)
    ensures specs == [] && ropeHalf == 0 ==> Bytes(specs, ropeHalf, a) == 0
  {
    StateGrows(specs, |specs|, a, b);
    ProductGrows(a, b, ropeHalf * 16);
    ProductGrows(1, a, ropeHalf * 16);
  }

  // -- The search and the gate ------------------------------------------------------------------

  /** The stage's attention memory at a context plus everything else fits. */
  ghost predicate Holds(specs: seq<LayerSpec>, ropeHalf: nat, other: nat, usable: nat, context: nat)
    requires AllValid(specs)
  {
    context > 0 && other + Bytes(specs, ropeHalf, context) <= usable
  }

  /** What the search reports when its guard lets it run: the largest context that fits. */
  ghost predicate IsLargest(specs: seq<LayerSpec>, ropeHalf: nat, other: nat, usable: nat, limit: nat, best: nat)
    requires AllValid(specs)
  {
    && best <= limit
    && (best > 0 ==> Holds(specs, ropeHalf, other, usable, best))
    && forall c :: best < c <= limit ==> !Holds(specs, ropeHalf, other, usable, c)
  }

  lemma HoldsDownward(specs: seq<LayerSpec>, ropeHalf: nat, other: nat, usable: nat, a: nat, b: nat)
    requires AllValid(specs) && 0 < a <= b && Holds(specs, ropeHalf, other, usable, b)
    ensures Holds(specs, ropeHalf, other, usable, a)
  {
    BytesGrow(specs, ropeHalf, a, b);
  }

  /** The binary search over contexts. Each probe is at least 1, so none is refused. */
  method MaxViableContext(specs: seq<LayerSpec>, ropeHalf: nat, other: nat, usable: nat, limit: nat) returns (best: nat)
    requires AllValid(specs)
    ensures usable <= other ==> best == 0
    ensures usable > other ==> IsLargest(specs, ropeHalf, other, usable, limit, best)
  {
    hide Bytes, AllValid;
    if usable <= other { return 0; }
    var low, high := 0, limit;
    while low < high
      invariant 0 <= low <= high <= limit
      invariant low > 0 ==> Holds(specs, ropeHalf, other, usable, low)
      invariant forall c :: high < c <= limit ==> !Holds(specs, ropeHalf, other, usable, c)
      decreases high - low
    {
      var midpoint := low + (high - low + 1) / 2;
      var candidate := StateMemory(specs, ropeHalf, midpoint);
      if other + candidate.value.Total() <= usable {
        low := midpoint;
      } else {
        forall c | midpoint <= c <= limit ensures !Holds(specs, ropeHalf, other, usable, c) {
          if Holds(specs, ropeHalf, other, usable, c) { HoldsDownward(specs, ropeHalf, other, usable, midpoint, c); }
        }
        high := midpoint - 1;
      }
    }
    return low;
  }

  /** The feasibility gate: refuse a context of 0, past the model's limit, or over the baseline. */
  method Gate(specs: seq<LayerSpec>, ropeHalf: nat, other: nat, usable: nat, limit: nat, context: nat) returns (ok: bool)
    requires AllValid(specs)
    ensures ok <==> context <= limit && Holds(specs, ropeHalf, other, usable, context)
  {
    if context == 0 || context > limit { return false; }
    var memory := StateMemory(specs, ropeHalf, context);
    return other + memory.value.Total() <= usable;
  }

  /** Gate and search agree on every context within the limit. */
  lemma GateAgreesWithSearch(specs: seq<LayerSpec>, ropeHalf: nat, other: nat, usable: nat, limit: nat, best: nat, context: nat)
    requires AllValid(specs) && 0 < context <= limit
    requires usable <= other ==> best == 0
    requires usable > other ==> IsLargest(specs, ropeHalf, other, usable, limit, best)
    requires specs != [] || ropeHalf > 0 || usable != other
    ensures Holds(specs, ropeHalf, other, usable, context) <==> context <= best
  {
    BytesGrow(specs, ropeHalf, context, context);
    if usable > other && context <= best {
      HoldsDownward(specs, ropeHalf, other, usable, context, best);
    }
  }

  ghost predicate AgreeEverywhere(specs: seq<LayerSpec>, ropeHalf: nat, other: nat, usable: nat, limit: nat, best: nat)
    requires AllValid(specs)
  {
    forall c :: 0 < c <= limit ==> (Holds(specs, ropeHalf, other, usable, c) <==> c <= best)
  }

  /** The one disagreement is a stage with no attention state at all on a device whose room is
      exactly the rest: the gate then accepts every context, and the search was never started. */
  lemma AgreementExact(specs: seq<LayerSpec>, ropeHalf: nat, other: nat, usable: nat, limit: nat, best: nat)
    requires AllValid(specs) && limit > 0
    requires usable <= other ==> best == 0
    requires usable > other ==> IsLargest(specs, ropeHalf, other, usable, limit, best)
    ensures AgreeEverywhere(specs, ropeHalf, other, usable, limit, best)
      <==> specs != [] || ropeHalf > 0 || usable != other
  {
    if specs != [] || ropeHalf > 0 || usable != other {
      forall c | 0 < c <= limit ensures Holds(specs, ropeHalf, other, usable, c) <==> c <= best {
        GateAgreesWithSearch(specs, ropeHalf, other, usable, limit, best, c);
      }
    } else {
      BytesGrow(specs, ropeHalf, limit, limit);
      assert Holds(specs, ropeHalf, other, usable, limit);
    }
  }
}
