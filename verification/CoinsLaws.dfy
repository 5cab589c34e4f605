/**
  What the FRESH flag of the coin caches is for (src/coins.cpp): coins that were
  created and spent above a layer leave nothing behind in it.
*/
module CoinsLaws {
  import opened Coins

  /** No layer keeps an entry for a coin that is spent and unknown below. */
  ghost predicate Lean(v: View) {
    match v
    case Db(_) => true
    case Cache(base, entries, _) =>
      Lean(base) && forall o :: o in entries ==> !(entries[o].isFresh && entries[o].coin.IsSpent())
  }

  lemma {:induction false} FetchLean(v: View, o: OutPoint)
    requires Valid(v) && Lean(v)
    ensures Lean(Fetch(v, o).view)
    decreases v
  {
    if v.Cache? && o !in v.entries {
      FetchLean(v.base, o);
      GetRefinesLookup(v.base, o);
      if o in CoinsOf(v.base) { ValidCoinsUnspent(v.base, o); }
    }
  }

  lemma MergeLean(ours: EntryMap, child: EntryMap)
    requires forall o :: o in ours ==> !(ours[o].isFresh && ours[o].coin.IsSpent())
    ensures var merged := Merge(ours, child);
      forall o :: o in merged ==> !(merged[o].isFresh && merged[o].coin.IsSpent())
  {
  }

  /** Every allowed step at any layer keeps the caches lean. */
  lemma {:induction false} StepLean(v: View, op: Op)
    requires Valid(v) && |Layers(v)| >= 1 && Allowed(Layers(v), op) && Lean(v)
    ensures Step(v, op).Some? && Lean(Step(v, op).value)
    decreases v
  {
    StepRefines(v, op);
    LayersHead(v);
    match op
    case OpGet(layer, o) => if layer == 0 { FetchLean(v, o); } else { StepLean(v.base, OpGet(layer - 1, o)); }
    case OpUncache(layer, o) => if layer > 0 { StepLean(v.base, OpUncache(layer - 1, o)); }
    case OpFlush(layer) =>
      if layer > 0 { StepLean(v.base, OpFlush(layer - 1)); }
      if layer == 0 && v.base.Cache? { MergeLean(v.base.entries, v.entries); }
    case OpSpend(o) => FetchLean(v, o);
    case _ =>
  }

  /** So they are after any run. */
  lemma {:induction false} RunLean(v: View, ops: seq<Op>)
    requires Valid(v) && |Layers(v)| >= 1 && AllAllowed(Layers(v), ops) && Lean(v)
    ensures Run(v, ops).Some? && Lean(Run(v, ops).value)
    decreases |ops|
  {
    if ops != [] {
      StepLean(v, ops[0]);
      StepRefines(v, ops[0]);
      RunLean(Step(v, ops[0]).value, ops[1..]);
    }
  }

  lemma FlushMerges(v: View)
    requires Valid(v) && v.Cache? && v.base.Cache?
    ensures Flush(v).Some? && Valid(Flush(v).value) && Flush(v).value.Cache? && Flush(v).value.base.Cache?
    ensures Flush(v).value.entries == map[] && Flush(v).value.base.entries == Merge(v.base.entries, v.entries)
  {
    FlushRefinesCopy(v);
  }

  /** A coin that is created above a cache reaches it as FRESH. */
  lemma Created(v: View, o: OutPoint, coin: Coin)
    requires Valid(v) && v.Cache? && v.base.Cache? && o !in CoinsOf(v) && o !in v.entries && o !in v.base.entries
    requires !coin.IsSpent() && !coin.unspendable
    ensures Add(v, o, coin, false).Some? && Flush(Add(v, o, coin, false).value).Some?
    ensures var kept := Flush(Add(v, o, coin, false).value).value;
      && Valid(kept) && kept.Cache? && kept.base.Cache? && kept.entries == map[]
      && o in kept.base.entries && kept.base.entries[o] == Entry(coin, true, true)
  {
    AddRefinesUpdate(v, o, coin, false);
    FlushMerges(Add(v, o, coin, false).value);
  }

  /** If it is spent above and flushed again, no entry is left: the database never
      hears of it. */
  lemma CreatedAndSpent(v: View, o: OutPoint, coin: Coin)
    requires Valid(v) && v.Cache? && v.base.Cache? && v.entries == map[]
    requires o in v.base.entries && v.base.entries[o] == Entry(coin, true, true) && !coin.IsSpent()
    ensures Flush(Spend(v, o).view).Some?
    ensures var gone := Flush(Spend(v, o).view).value;
      gone.Cache? && gone.base.Cache? && o !in gone.base.entries
  {
    SpendRefinesRemoval(v, o);
    assert Get(v.base, o) == Fetched(v.base, Some(coin));
    var spent := Spend(v, o).view;
    assert spent.base == v.base && spent.entries[o] == Entry(CLEARED, true, false);
    FlushMerges(spent);
  }
}
