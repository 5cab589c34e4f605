/**
  The unspent-output cache stack (src/coins.cpp, src/coins.h).

  A view of the coin set is a database with any number of write-back caches on
  top. Every cache entry carries the flags DIRTY (may differ from the layer
  below) and FRESH (the layer below shows no unspent coin here). FRESH lets a
  spend erase the entry instead of leaving a tombstone; this module proves that
  the stack nevertheless behaves like a plain map from outpoints to coins.
*/
module Coins {

  datatype Option<+T> = None | Some(value: T)

  datatype OutPoint = OutPoint(hash: int, n: nat)

  /** A coin. The script is represented by the two facts the cache looks at:
      the heap memory it owns and whether it can ever be spent. */
  datatype Coin = Coin(nValue: int, scriptMemory: nat, unspendable: bool, coinBase: bool, height: nat) {
    predicate IsSpent() { nValue == -1 }
    function DynamicMemoryUsage(): nat { scriptMemory }
  }

  /** The state Coin::Clear and the default constructor leave behind. */
  const CLEARED := Coin(-1, 0, false, false, 0)

  datatype Entry = Entry(coin: Coin, isDirty: bool, isFresh: bool)

  type CoinMap = map<OutPoint, Coin>
  type EntryMap = map<OutPoint, Entry>

  /** A database, or a cache over another view. */
  datatype View =
    | Db(coins: CoinMap)
    | Cache(base: View, entries: EntryMap, usage: int)

  // ----- What a view means -----

  /** The coins visible through a layer of entries above `below`. */
  ghost function Overlay(below: CoinMap, entries: EntryMap): CoinMap {
    map o | o in below.Keys + entries.Keys && (o in entries ==> !entries[o].coin.IsSpent())
      :: if o in entries then entries[o].coin else below[o]
  }

  ghost function CoinsOf(v: View): CoinMap {
    match v
    case Db(coins) => coins
    case Cache(base, entries, _) => Overlay(CoinsOf(base), entries)
  }

  /** The flag discipline of one layer: FRESH entries hide nothing below, and
      entries that are not DIRTY agree with the layer below. */
  ghost predicate FlagsOk(below: CoinMap, entries: EntryMap) {
    forall o :: o in entries ==> EntryOk(below, o, entries[o])
  }

  ghost predicate EntryOk(below: CoinMap, o: OutPoint, e: Entry) {
    && (e.isFresh ==> o !in below)
    && (!e.isDirty ==> (e.coin.IsSpent() <==> o !in below) && (o in below ==> below[o] == e.coin))
  }

  /** Sum of the memory owned by the cached coins. */
  ghost function TotalUsage(entries: EntryMap): nat {
    if entries == map[] then 0
    else
      var o :| o in entries;
      entries[o].coin.DynamicMemoryUsage() + TotalUsage(entries - {o})
  }

  ghost predicate Valid(v: View) {
    match v
    case Db(coins) => forall o :: o in coins ==> !coins[o].IsSpent()
    case Cache(base, entries, usage) =>
      && Valid(base)
      && FlagsOk(CoinsOf(base), entries)
      && usage == TotalUsage(entries)
  }

  lemma TotalUsageRemove(entries: EntryMap, o: OutPoint)
    requires o in entries
    ensures TotalUsage(entries) == entries[o].coin.DynamicMemoryUsage() + TotalUsage(entries - {o})
    decreases |entries|
  {
    var p :| p in entries && TotalUsage(entries) == entries[p].coin.DynamicMemoryUsage() + TotalUsage(entries - {p});
    if p != o {
      TotalUsageRemove(entries - {p}, o);
      TotalUsageRemove(entries - {o}, p);
      assert entries - {p} - {o} == entries - {o} - {p};
    }
  }

  lemma TotalUsagePut(entries: EntryMap, o: OutPoint, e: Entry)
    ensures TotalUsage(entries[o := e]) == TotalUsage(entries - {o}) + e.coin.DynamicMemoryUsage()
    ensures o !in entries ==> entries - {o} == entries
  {
    TotalUsageRemove(entries[o := e], o);
    assert entries[o := e] - {o} == entries - {o};
  }

  lemma ValidCoinsUnspent(v: View, o: OutPoint)
    requires Valid(v) && o in CoinsOf(v)
    ensures !CoinsOf(v)[o].IsSpent()
  {
    if v.Cache? && o !in v.entries {
      ValidCoinsUnspent(v.base, o);
    }
  }

  // ----- Changing one entry of a layer -----

  lemma OverlayPut(below: CoinMap, entries: EntryMap, o: OutPoint, e: Entry)
    ensures Overlay(below, entries[o := e]) ==
            if e.coin.IsSpent() then Overlay(below, entries) - {o} else Overlay(below, entries)[o := e.coin]
  {
  }

  lemma OverlayDrop(below: CoinMap, entries: EntryMap, o: OutPoint)
    ensures Overlay(below, entries - {o}) ==
            if o in below then Overlay(below, entries)[o := below[o]] else Overlay(below, entries) - {o}
  {
  }

  lemma FlagsPut(below: CoinMap, entries: EntryMap, o: OutPoint, e: Entry)
    requires FlagsOk(below, entries) && EntryOk(below, o, e)
    ensures FlagsOk(below, entries[o := e])
  {
    var updated := entries[o := e];
    forall p | p in updated ensures EntryOk(below, p, updated[p]) {
      assert p != o ==> p in entries;
    }
  }

  lemma FlagsDrop(below: CoinMap, entries: EntryMap, o: OutPoint)
    requires FlagsOk(below, entries)
    ensures FlagsOk(below, entries - {o})
  {
    forall p | p in entries - {o} ensures EntryOk(below, p, (entries - {o})[p]) {
      assert p in entries;
    }
  }

  // ----- Operations on values -----

  datatype Fetched = Fetched(view: View, coin: Option<Coin>)

  /** FetchCoin on a cache (filling it from below on a miss); a plain read on
      the database. */
  function Fetch(v: View, o: OutPoint): Fetched
    decreases v, 0
  {
    match v
    case Db(coins) => Fetched(v, if o in coins then Some(coins[o]) else None)
    case Cache(base, entries, usage) =>
      if o in entries then Fetched(v, Some(entries[o].coin))
      else
        var below := Get(base, o);
        if below.coin.None? then Fetched(Cache(below.view, entries, usage), None)
        else
          var c := below.coin.value;
          Fetched(Cache(below.view, entries[o := Entry(c, false, c.IsSpent())], usage + c.DynamicMemoryUsage()),
            Some(c))
  }

  /** GetCoin: the fetched coin, unless it is spent. The database answers
      whatever it stores. */
  function Get(v: View, o: OutPoint): Fetched
    decreases v, 1
  {
    var f := Fetch(v, o);
    if v.Cache? && f.coin.Some? && f.coin.value.IsSpent() then Fetched(f.view, None) else f
  }

  /** AddCoin on a cache; None is the thrown "replaces non-pruned entry". */
  function Add(v: View, o: OutPoint, coin: Coin, possibleOverwrite: bool): Option<View>
    requires v.Cache?
  {
    if coin.unspendable then Some(v)
    else
      var before := if o in v.entries then v.entries[o] else Entry(CLEARED, false, false);
      if !possibleOverwrite && !before.coin.IsSpent() then None
      else
        var markFresh := !possibleOverwrite && !before.isDirty;
        Some(Cache(v.base, v.entries[o := Entry(coin, true, before.isFresh || markFresh)],
                   v.usage - before.coin.DynamicMemoryUsage() + coin.DynamicMemoryUsage()))
  }

  datatype Spent = Spent(view: View, ok: bool, moved: Coin)

  function Spend(v: View, o: OutPoint): Spent
    requires v.Cache?
  {
    var f := Fetch(v, o);
    if f.coin.None? || o !in f.view.entries then Spent(f.view, false, CLEARED)
    else
      var e := f.view.entries[o];
      var usage := f.view.usage - e.coin.DynamicMemoryUsage();
      if e.isFresh then Spent(Cache(f.view.base, f.view.entries - {o}, usage), true, e.coin)
      else Spent(Cache(f.view.base, f.view.entries[o := Entry(CLEARED, true, false)], usage), true, e.coin)
  }

  function Uncache(v: View, o: OutPoint): View
    requires v.Cache?
  {
    if o in v.entries && !v.entries[o].isDirty && !v.entries[o].isFresh then
      Cache(v.base, v.entries - {o}, v.usage - v.entries[o].coin.DynamicMemoryUsage())
    else v
  }

  /** The "FRESH flag misapplied" condition of BatchWrite. */
  predicate Misapplied(ours: EntryMap, o: OutPoint, e: Entry) {
    e.isDirty && o in ours && e.isFresh && !ours[o].coin.IsSpent()
  }

  ghost predicate NoneMisapplied(ours: EntryMap, child: EntryMap) {
    forall o :: o in child ==> !Misapplied(ours, o, child[o])
  }

  /** What BatchWrite leaves in our cache at one outpoint for a child entry. */
  function MergeOne(ours: EntryMap, o: OutPoint, e: Entry): Option<Entry> {
    if !e.isDirty then if o in ours then Some(ours[o]) else None
    else if o !in ours then
      if e.isFresh && e.coin.IsSpent() then None else Some(Entry(e.coin, true, e.isFresh))
    else if ours[o].isFresh && e.coin.IsSpent() then None
    else Some(Entry(e.coin, true, ours[o].isFresh))
  }

  ghost function Merge(ours: EntryMap, child: EntryMap): EntryMap {
    map o | o in ours.Keys + child.Keys && (o in child ==> MergeOne(ours, o, child[o]).Some?)
      :: if o in child then MergeOne(ours, o, child[o]).value else ours[o]
  }

  /** The database keeps unspent dirty coins and erases spent ones. */
  ghost function WriteDb(coins: CoinMap, child: EntryMap): CoinMap {
    map o | o in coins.Keys + child.Keys
            && (if o in child && child[o].isDirty then !child[o].coin.IsSpent() else o in coins)
      :: if o in child && child[o].isDirty then child[o].coin else coins[o]
  }

  /** BatchWrite; None is the thrown "FRESH flag misapplied". */
  ghost function BatchWrite(v: View, child: EntryMap): Option<View> {
    match v
    case Db(coins) => Some(Db(WriteDb(coins, child)))
    case Cache(base, entries, _) =>
      if !NoneMisapplied(entries, child) then None
      else Some(Cache(base, Merge(entries, child), TotalUsage(Merge(entries, child))))
  }

  ghost function Flush(v: View): Option<View>
    requires v.Cache?
  {
    match BatchWrite(v.base, v.entries)
    case None => None
    case Some(base) => Some(Cache(base, map[], 0))
  }

  // ----- Each operation against the plain map -----

  /** Reading fills caches along the way but changes no layer's contents. */
  lemma {:induction false} GetRefinesLookup(v: View, o: OutPoint)
    requires Valid(v)
    ensures Valid(Fetch(v, o).view) && Layers(Fetch(v, o).view) == Layers(v)
    ensures Get(v, o).coin == if o in CoinsOf(v) then Some(CoinsOf(v)[o]) else None
    ensures Fetch(v, o).view.Cache? == v.Cache?
    ensures v.Cache? ==> (Fetch(v, o).coin.Some? <==> o in v.entries || o in CoinsOf(v.base))
    ensures v.Cache? ==> Fetch(v, o).view.entries.Keys == v.entries.Keys + (if o in CoinsOf(v.base) then {o} else {})
    decreases v
  {
    LayersHead(v);
    if v.Cache? && o !in v.entries {
      GetRefinesLookup(v.base, o);
      LayersHead(v.base);
      var below := Get(v.base, o);
      LayersHead(below.view);
      if o in CoinsOf(v.base) {
        ValidCoinsUnspent(v.base, o);
        var e := Entry(below.coin.value, false, false);
        TotalUsagePut(v.entries, o, e);
        FlagsPut(CoinsOf(v.base), v.entries, o, e);
        OverlayPut(CoinsOf(v.base), v.entries, o, e);
        assert CoinsOf(v)[o := e.coin] == CoinsOf(v);
        LayersHead(Fetch(v, o).view);
      }
    }
  }

  /** Adding with the documented precondition is map update, and the throw is
      unreachable. */
  lemma AddRefinesUpdate(v: View, o: OutPoint, coin: Coin, possibleOverwrite: bool)
    requires Valid(v) && v.Cache? && !coin.IsSpent()
    requires possibleOverwrite || o !in CoinsOf(v)
    ensures Add(v, o, coin, possibleOverwrite).Some?
    ensures var w := Add(v, o, coin, possibleOverwrite).value;
            && Valid(w) && w.Cache? && w.base == v.base
            && CoinsOf(w) == if coin.unspendable then CoinsOf(v) else CoinsOf(v)[o := coin]
  {
    if !coin.unspendable {
      AddUsage(v, o, coin, possibleOverwrite);
      if o in v.entries { assert EntryOk(CoinsOf(v.base), o, v.entries[o]); }
      var e := Add(v, o, coin, possibleOverwrite).value.entries[o];
      FlagsPut(CoinsOf(v.base), v.entries, o, e);
      OverlayPut(CoinsOf(v.base), v.entries, o, e);
    }
  }

  lemma AddUsage(v: View, o: OutPoint, coin: Coin, possibleOverwrite: bool)
    requires v.Cache? && v.usage == TotalUsage(v.entries) && !coin.unspendable
    ensures var r := Add(v, o, coin, possibleOverwrite);
            r.Some? ==> r.value.usage == TotalUsage(r.value.entries)
  {
    var r := Add(v, o, coin, possibleOverwrite);
    if r.Some? {
      TotalUsagePut(v.entries, o, r.value.entries[o]);
      if o in v.entries { TotalUsageRemove(v.entries, o); }
    }
  }

  /** Without possible_overwrite, exactly the calls that meet the documented
      precondition keep the flag discipline: a call that adds over a visible
      unspent coin either throws or leaves a misapplied FRESH flag. */
  lemma AddKeepsFlagsIff(v: View, o: OutPoint, coin: Coin)
    requires Valid(v) && v.Cache? && !coin.IsSpent() && !coin.unspendable
    ensures (Add(v, o, coin, false).Some? && Valid(Add(v, o, coin, false).value)) <==> o !in CoinsOf(v)
  {
    if o !in CoinsOf(v) {
      AddRefinesUpdate(v, o, coin, false);
    } else if o !in v.entries {
      assert Add(v, o, coin, false).value.entries[o].isFresh;
    }
  }

  /** What the misapplied flag costs: a coin added over an unspent one that is
      not cached here, and then spent, brings the old coin back to life. Over a
      cached unspent coin the addition throws. */
  lemma MisappliedFreshResurrects(v: View, o: OutPoint, coin: Coin)
    requires Valid(v) && v.Cache? && o in CoinsOf(v) && !coin.IsSpent() && !coin.unspendable
    ensures Add(v, o, coin, false).Some? <==> o !in v.entries
    ensures o !in v.entries ==>
              var w := Add(v, o, coin, false).value;
              CoinsOf(w) == CoinsOf(v)[o := coin] && Spend(w, o).ok && CoinsOf(Spend(w, o).view) == CoinsOf(v)
  {
    if o !in v.entries {
      var e := Entry(coin, true, true);
      OverlayPut(CoinsOf(v.base), v.entries, o, e);
      assert v.entries[o := e] - {o} == v.entries;
    }
  }

  /** Spending removes the coin from the view, however the entry was flagged.
      The answer is true also for an entry that is cached as already spent. */
  lemma SpendRefinesRemoval(v: View, o: OutPoint)
    requires Valid(v) && v.Cache?
    ensures var s := Spend(v, o);
            && Valid(s.view) && s.view.Cache?
            && CoinsOf(s.view) == CoinsOf(v) - {o}
            && Layers(s.view.base) == Layers(v.base)
            && (s.ok <==> o in v.entries || o in CoinsOf(v.base))
            && (o in CoinsOf(v) ==> s.ok && s.moved == CoinsOf(v)[o])
  {
    GetRefinesLookup(v, o);
    LayersHead(v);
    var f := Fetch(v, o);
    LayersHead(f.view);
    assert Layers(f.view)[1..] == Layers(v)[1..];
    LayersHead(f.view.base);
    LayersHead(v.base);
    if o in f.view.entries {
      var below, entries, e := CoinsOf(f.view.base), f.view.entries, Entry(CLEARED, true, false);
      assert EntryOk(below, o, entries[o]);
      TotalUsageRemove(entries, o);
      TotalUsagePut(entries, o, e);
      OverlayPut(below, entries, o, e);
      OverlayDrop(below, entries, o);
      FlagsPut(below, entries, o, e);
      FlagsDrop(below, entries, o);
    }
  }

  lemma UncacheRefinesSkip(v: View, o: OutPoint)
    requires Valid(v) && v.Cache?
    ensures var w := Uncache(v, o);
            Valid(w) && w.Cache? && w.base == v.base && CoinsOf(w) == CoinsOf(v)
    ensures var kept := o in v.entries && (v.entries[o].isDirty || v.entries[o].isFresh);
            Uncache(v, o).entries == if kept then v.entries else v.entries - {o}
  {
    if o !in v.entries { assert v.entries - {o} == v.entries; }
    if Uncache(v, o) != v {
      assert EntryOk(CoinsOf(v.base), o, v.entries[o]);
      TotalUsageRemove(v.entries, o);
      OverlayDrop(CoinsOf(v.base), v.entries, o);
      FlagsDrop(CoinsOf(v.base), v.entries, o);
    }
  }

  lemma WriteDbIsOverlay(coins: CoinMap, child: EntryMap)
    requires FlagsOk(coins, child)
    ensures WriteDb(coins, child) == Overlay(coins, child)
  {
    forall o ensures o in WriteDb(coins, child) <==> o in Overlay(coins, child) {
      if o in child { assert EntryOk(coins, o, child[o]); }
    }
    forall o | o in Overlay(coins, child) ensures WriteDb(coins, child)[o] == Overlay(coins, child)[o] {
      if o in child { assert EntryOk(coins, o, child[o]); }
    }
  }

  /** The heart of the FRESH optimisation: merging a disciplined child into a
      disciplined parent throws nothing, shows what the child showed, and leaves
      the parent disciplined towards its own base. */
  lemma MergeIsOverlay(below: CoinMap, ours: EntryMap, child: EntryMap)
    requires FlagsOk(below, ours) && FlagsOk(Overlay(below, ours), child)
    ensures NoneMisapplied(ours, child)
    ensures Overlay(below, Merge(ours, child)) == Overlay(Overlay(below, ours), child)
    ensures FlagsOk(below, Merge(ours, child))
  {
    var mid := Overlay(below, ours);
    var merged := Merge(ours, child);
    forall o | o in child ensures !Misapplied(ours, o, child[o]) {
      assert EntryOk(mid, o, child[o]);
    }
    forall o | o in merged ensures EntryOk(below, o, merged[o]) {
      if o in ours { assert EntryOk(below, o, ours[o]); }
      if o in child { assert EntryOk(mid, o, child[o]); }
    }
    forall o
      ensures o in Overlay(below, merged) <==> o in Overlay(mid, child)
      ensures o in Overlay(mid, child) ==> Overlay(below, merged)[o] == Overlay(mid, child)[o]
    {
      MergePoint(below, ours, child, o);
    }
  }

  lemma MergePoint(below: CoinMap, ours: EntryMap, child: EntryMap, o: OutPoint)
    requires FlagsOk(below, ours) && FlagsOk(Overlay(below, ours), child)
    ensures o in Overlay(below, Merge(ours, child)) <==> o in Overlay(Overlay(below, ours), child)
    ensures o in Overlay(Overlay(below, ours), child) ==>
              Overlay(below, Merge(ours, child))[o] == Overlay(Overlay(below, ours), child)[o]
  {
    if o in ours { assert EntryOk(below, o, ours[o]); }
    if o in child { assert EntryOk(Overlay(below, ours), o, child[o]); }
  }

  /** Flushing never throws; afterwards the parent shows exactly the child's old
      view and the child, now empty, still shows it. */
  lemma FlushRefinesCopy(v: View)
    requires Valid(v) && v.Cache?
    ensures Flush(v).Some?
    ensures var w := Flush(v).value;
            && Valid(w) && w.Cache? && w.entries == map[]
            && CoinsOf(w) == CoinsOf(v) && CoinsOf(w.base) == CoinsOf(v)
            && Layers(w.base)[1..] == Layers(v.base)[1..]
  {
    var base := v.base;
    LayersHead(base);
    match base
    case Db(coins) =>
      WriteDbIsOverlay(coins, v.entries);
      assert Overlay(CoinsOf(v), map[]) == CoinsOf(v);
    case Cache(below, ours, _) =>
      MergeIsOverlay(CoinsOf(below), ours, v.entries);
      assert Overlay(CoinsOf(v), map[]) == CoinsOf(v);
  }

  // ----- Runs over a stack of any depth -----

  /** The visible map of every layer, top first. */
  ghost function Layers(v: View): seq<CoinMap> {
    match v
    case Db(coins) => [coins]
    case Cache(base, _, _) => [CoinsOf(v)] + Layers(base)
  }

  lemma LayersHead(v: View)
    ensures |Layers(v)| >= 1 && Layers(v)[0] == CoinsOf(v)
    ensures v.Cache? <==> |Layers(v)| >= 2
    ensures v.Cache? ==> Layers(v)[1..] == Layers(v.base)
  {
    if v.Cache? { LayersHead(v.base); }
  }

  /** The steps of a run. Reads, Uncache and Flush may address any layer,
      counted from the top; coins are added and spent at the top. */
  datatype Op =
    | OpGet(layer: nat, o: OutPoint)
    | OpAdd(o: OutPoint, coin: Coin, possibleOverwrite: bool)
    | OpSpend(o: OutPoint)
    | OpUncache(layer: nat, o: OutPoint)
    | OpFlush(layer: nat)
    | OpPush
    | OpPop

  /** What the interface asks of a caller, stated on the plain maps. */
  ghost predicate Allowed(s: seq<CoinMap>, op: Op)
    requires |s| >= 1
  {
    match op
    case OpGet(layer, _) => layer < |s|
    case OpAdd(o, coin, over) => |s| >= 2 && !coin.IsSpent() && (over || o !in s[0])
    case OpSpend(_) => |s| >= 2
    case OpUncache(layer, _) => layer + 1 < |s|
    case OpFlush(layer) => layer + 1 < |s|
    case OpPush => true
    case OpPop => |s| >= 2
  }

  /** The same steps on a stack of plain maps. */
  ghost function SpecStep(s: seq<CoinMap>, op: Op): seq<CoinMap>
    requires |s| >= 1 && Allowed(s, op)
  {
    match op
    case OpGet(_, _) => s
    case OpAdd(o, coin, _) => if coin.unspendable then s else s[0 := s[0][o := coin]]
    case OpSpend(o) => s[0 := s[0] - {o}]
    case OpUncache(_, _) => s
    case OpFlush(layer) => s[layer + 1 := s[layer]]
    case OpPush => [s[0]] + s
    case OpPop => s[1..]
  }

  /** One step of the stack of caches; None is a throw or a missing layer. */
  ghost function Step(v: View, op: Op): Option<View>
    decreases v, 1
  {
    match op
    case OpGet(layer, o) =>
      if layer == 0 then Some(Get(v, o).view) else Below(v, OpGet(layer - 1, o))
    case OpAdd(o, coin, over) => if v.Db? then None else Add(v, o, coin, over)
    case OpSpend(o) => if v.Db? then None else Some(Spend(v, o).view)
    case OpUncache(layer, o) =>
      if layer == 0 then if v.Db? then None else Some(Uncache(v, o))
      else Below(v, OpUncache(layer - 1, o))
    case OpFlush(layer) =>
      if layer == 0 then if v.Db? then None else Flush(v)
      else Below(v, OpFlush(layer - 1))
    case OpPush => Some(Cache(v, map[], 0))
    case OpPop => if v.Db? then None else Some(v.base)
  }

  ghost function Below(v: View, op: Op): Option<View>
    requires op.OpGet? || op.OpUncache? || op.OpFlush?
    decreases v, 0
  {
    if v.Db? then None
    else
      match Step(v.base, op)
      case None => None
      case Some(base) => Some(Cache(base, v.entries, v.usage))
  }

  lemma TopLayers(v: View, w: View)
    requires v.Cache? && w.Cache? && w.base == v.base
    ensures |Layers(v)| >= 2 && Layers(w) == Layers(v)[0 := CoinsOf(w)]
  {
    LayersHead(v);
    LayersHead(w);
  }

  lemma SpendLayers(v: View, o: OutPoint)
    requires Valid(v) && v.Cache?
    ensures Valid(Spend(v, o).view)
    ensures |Layers(v)| >= 2 && Layers(Spend(v, o).view) == Layers(v)[0 := Layers(v)[0] - {o}]
  {
    SpendRefinesRemoval(v, o);
    LayersHead(v);
    LayersHead(Spend(v, o).view);
  }

  lemma FlushLayers(v: View)
    requires Valid(v) && v.Cache?
    ensures Flush(v).Some? && Valid(Flush(v).value)
    ensures |Layers(v)| >= 2 && Layers(Flush(v).value) == Layers(v)[1 := Layers(v)[0]]
  {
    FlushRefinesCopy(v);
    var w := Flush(v).value;
    LayersHead(v);
    LayersHead(v.base);
    LayersHead(w);
    LayersHead(w.base);
    assert Layers(w) == [CoinsOf(v)] + ([CoinsOf(v)] + Layers(v.base)[1..]);
  }

  /** Every allowed step refines the step on plain maps and keeps validity. */
  lemma {:induction false} StepRefines(v: View, op: Op)
    requires Valid(v) && |Layers(v)| >= 1 && Allowed(Layers(v), op)
    ensures Step(v, op).Some?
    ensures Valid(Step(v, op).value)
    ensures Layers(Step(v, op).value) == SpecStep(Layers(v), op)
    decreases v, 2
  {
    if op.OpGet? || op.OpUncache? || op.OpFlush? {
      LayerStepRefines(v, op);
    } else {
      TopStepRefines(v, op);
    }
  }

  lemma TopStepRefines(v: View, op: Op)
    requires op.OpAdd? || op.OpSpend? || op.OpPush? || op.OpPop?
    requires Valid(v) && |Layers(v)| >= 1 && Allowed(Layers(v), op)
    ensures Step(v, op).Some?
    ensures Valid(Step(v, op).value)
    ensures Layers(Step(v, op).value) == SpecStep(Layers(v), op)
  {
    LayersHead(v);
    match op
    case OpAdd(o, coin, over) =>
      AddRefinesUpdate(v, o, coin, over);
      TopLayers(v, Add(v, o, coin, over).value);
    case OpSpend(o) =>
      SpendLayers(v, o);
    case OpPush =>
      assert Overlay(CoinsOf(v), map[]) == CoinsOf(v);
    case OpPop =>
  }

  lemma {:induction false} LayerStepRefines(v: View, op: Op)
    requires op.OpGet? || op.OpUncache? || op.OpFlush?
    requires Valid(v) && |Layers(v)| >= 1 && Allowed(Layers(v), op)
    ensures Step(v, op).Some?
    ensures Valid(Step(v, op).value)
    ensures Layers(Step(v, op).value) == SpecStep(Layers(v), op)
    decreases v, 1
  {
    LayersHead(v);
    if op.layer > 0 {
      BelowRefines(v, op.(layer := op.layer - 1));
      assert Layers(v) == [CoinsOf(v)] + Layers(v)[1..];
    } else {
      match op
      case OpGet(_, o) => GetRefinesLookup(v, o);
      case OpUncache(_, o) => UncacheRefinesSkip(v, o); TopLayers(v, Uncache(v, o));
      case OpFlush(_) => FlushLayers(v);
    }
  }

  /** A step further down leaves every upper layer's view as it was. */
  lemma {:induction false} BelowRefines(v: View, op: Op)
    requires op.OpGet? || op.OpUncache? || op.OpFlush?
    requires Valid(v) && |Layers(v)| >= 2 && Allowed(Layers(v)[1..], op)
    ensures Below(v, op).Some? && Valid(Below(v, op).value)
    ensures Layers(Below(v, op).value) == [CoinsOf(v)] + SpecStep(Layers(v)[1..], op)
    decreases v, 0
  {
    LayersHead(v);
    StepRefines(v.base, op);
    LayersHead(v.base);
    LayersHead(Step(v.base, op).value);
    LayersHead(Below(v, op).value);
    assert CoinsOf(Step(v.base, op).value) == CoinsOf(v.base);
  }

  ghost predicate AllAllowed(s: seq<CoinMap>, ops: seq<Op>)
    requires |s| >= 1
    decreases |ops|
  {
    ops == [] || (Allowed(s, ops[0]) && |SpecStep(s, ops[0])| >= 1 && AllAllowed(SpecStep(s, ops[0]), ops[1..]))
  }

  ghost function SpecRun(s: seq<CoinMap>, ops: seq<Op>): seq<CoinMap>
    requires |s| >= 1 && AllAllowed(s, ops)
    decreases |ops|
  {
    if ops == [] then s else SpecRun(SpecStep(s, ops[0]), ops[1..])
  }

  ghost function Run(v: View, ops: seq<Op>): Option<View>
    decreases |ops|
  {
    if ops == [] then Some(v)
    else
      match Step(v, ops[0])
      case None => None
      case Some(w) => Run(w, ops[1..])
  }

  /** Any run over a stack of any depth: no throw is reached, every layer shows
      the plain map the same run computes, and the invariant still holds. */
  lemma {:induction false} RunRefines(v: View, ops: seq<Op>)
    requires Valid(v) && |Layers(v)| >= 1 && AllAllowed(Layers(v), ops)
    ensures Run(v, ops).Some?
    ensures Valid(Run(v, ops).value)
    ensures Layers(Run(v, ops).value) == SpecRun(Layers(v), ops)
    decreases |ops|
  {
    if ops != [] {
      StepRefines(v, ops[0]);
      RunRefines(Step(v, ops[0]).value, ops[1..]);
    }
  }

  // ----- The classes -----

  /** What the database holds: the coins, the block they belong to, and, in the
      middle of a transition, the blocks it leads to and comes from. */
  datatype Disk = Disk(coins: CoinMap, bestBlock: int, headBlocks: seq<int>)

  const NULL_HASH := 0

  function CoinAt(coins: CoinMap, o: OutPoint): Option<Coin> { if o in coins then Some(coins[o]) else None }

  /** Each coin is as it was or as it will be. */
  ghost predicate Between(before: CoinMap, after: CoinMap, coins: CoinMap) {
    forall o :: CoinAt(coins, o) == CoinAt(before, o) || CoinAt(coins, o) == CoinAt(after, o)
  }

  function OldTip(d: Disk): int {
    if d.bestBlock == NULL_HASH && |d.headBlocks| == 2 then d.headBlocks[1] else d.bestBlock
  }

  /** A transition that was broken off can only be taken up again. */
  predicate MayWrite(d: Disk, hashBlock: int) {
    hashBlock != NULL_HASH && (d.bestBlock == NULL_HASH && |d.headBlocks| == 2 ==> d.headBlocks[0] == hashBlock)
  }

  /** A state between two batches of a transition. */
  ghost predicate Partway(before: Disk, child: EntryMap, hashBlock: int, d: Disk) {
    && d.bestBlock == NULL_HASH && d.headBlocks == [hashBlock, OldTip(before)]
    && Between(before.coins, WriteDb(before.coins, child), d.coins)
  }

  /** The transition has not begun or is on its way. */
  ghost predicate Unfinished(before: Disk, child: EntryMap, hashBlock: int, d: Disk) {
    d == before || Partway(before, child, hashBlock, d)
  }

  /** Writing again after an interruption ends where it would have ended, and
      the database still knows where the transition came from. */
  lemma Replays(before: Disk, child: EntryMap, hashBlock: int, d: Disk)
    requires MayWrite(before, hashBlock) && Unfinished(before, child, hashBlock, d)
    ensures MayWrite(d, hashBlock) && OldTip(d) == OldTip(before)
    ensures WriteDb(d.coins, child) == WriteDb(before.coins, child)
  {
    var again, after := WriteDb(d.coins, child), WriteDb(before.coins, child);
    forall o ensures CoinAt(again, o) == CoinAt(after, o) {
      assert CoinAt(d.coins, o) == CoinAt(before.coins, o) || CoinAt(d.coins, o) == CoinAt(after, o);
    }
    SameCoins(again, after);
  }

  lemma SameCoins(a: CoinMap, b: CoinMap)
    requires forall o :: CoinAt(a, o) == CoinAt(b, o)
    ensures a == b
  {
    forall o ensures o in a <==> o in b { assert CoinAt(a, o) == CoinAt(b, o); }
    forall o | o in a ensures a[o] == b[o] { assert CoinAt(a, o) == CoinAt(b, o); }
  }

  /** The entries visited so far. */
  ghost function Visited(child: EntryMap, order: seq<OutPoint>): EntryMap {
    map o | o in order && o in child :: child[o]
  }

  /** What is on disk after each full batch when the entries are visited in the
      given order and `full` tells after which of them a batch is full. */
  ghost function Batches(before: Disk, child: EntryMap, hashBlock: int, order: seq<OutPoint>, full: seq<bool>)
    : seq<Disk>
    requires |order| <= |full|
  {
    if order == [] then []
    else
      var k := |order| - 1;
      Batches(before, child, hashBlock, order[..k], full) +
      if !full[k] then []
      else [Disk(WriteDb(before.coins, Visited(child, order)), NULL_HASH, [hashBlock, OldTip(before)])]
  }

  lemma BatchesNext(before: Disk, child: EntryMap, hashBlock: int, order: seq<OutPoint>, full: seq<bool>, o: OutPoint)
    requires |order| < |full| && o in child
    ensures Visited(child, order + [o]) == Visited(child, order)[o := child[o]]
    ensures Batches(before, child, hashBlock, order + [o], full) == Batches(before, child, hashBlock, order, full) +
      if !full[|order|] then []
      else [Disk(WriteDb(before.coins, Visited(child, order + [o])), NULL_HASH, [hashBlock, OldTip(before)])]
  {
    assert (order + [o])[..|order|] == order;
  }

  lemma JoinLast(past: seq<Disk>, b: seq<Disk>, was: seq<Disk>, now: seq<Disk>, b': seq<Disk>)
    requires was == past + b && was <= now && b <= b' && now[|was|..] == b'[|b|..]
    ensures now == past + b'
  {
    assert now == was + now[|was|..] && b' == b + b'[|b|..];
  }

  /** Whenever the writing is interrupted, the transition has not begun or is on
      its way. */
  lemma {:induction false} BatchesUnfinished(before: Disk, child: EntryMap, hashBlock: int, order: seq<OutPoint>,
        full: seq<bool>, d: Disk)
    requires |order| <= |full| && d in [before] + Batches(before, child, hashBlock, order, full)
    ensures Unfinished(before, child, hashBlock, d)
    decreases |order|
  {
    if d != before {
      var k := |order| - 1;
      if d in Batches(before, child, hashBlock, order[..k], full) {
        BatchesUnfinished(before, child, hashBlock, order[..k], full, d);
      } else {
        PartBetween(before.coins, child, Visited(child, order));
      }
    }
  }

  lemma PartBetween(before: CoinMap, child: EntryMap, part: EntryMap)
    requires forall o :: o in part ==> o in child && part[o] == child[o]
    ensures Between(before, WriteDb(before, child), WriteDb(before, part))
  {
  }

  /** The coins and the batch account for the entries visited. */
  ghost predicate Written(before: CoinMap, child: EntryMap, done: EntryMap, rest: EntryMap, batch: EntryMap,
        coins: CoinMap) {
    Split(child, done, rest) && batch.Keys <= done.Keys && WriteDb(coins, batch) == WriteDb(before, done)
  }

  lemma WrittenAll(before: CoinMap, child: EntryMap, done: EntryMap, rest: EntryMap, batch: EntryMap, coins: CoinMap)
    requires Written(before, child, done, rest, batch, coins) && rest == map[]
    ensures |rest| == 0 && done == child && WriteDb(coins, batch) == WriteDb(before, child)
  {
    SplitDone(child, done, rest);
  }

  class CoinsDb {
    var coins: CoinMap
    var bestBlock: int
    var headBlocks: seq<int>

    /** All states the database has been in: each batch makes a new one. */
    ghost var history: seq<Disk>

    ghost function OnDisk(): Disk
      reads this
    {
      Disk(coins, bestBlock, headBlocks)
    }

    constructor ()
      ensures OnDisk() == Disk(map[], NULL_HASH, []) && history == [OnDisk()]
    {
      coins, bestBlock, headBlocks := map[], NULL_HASH, [];
      history := [Disk(map[], NULL_HASH, [])];
    }

    method WriteCoins(batch: EntryMap)
      modifies this`coins
      ensures coins == WriteDb(old(coins), batch)
    {
      ghost var done: EntryMap := map[];
      var rest := batch;
      EmptyMerge(map[], coins);
      while rest != map[]
        invariant Split(batch, done, rest)
        invariant coins == WriteDb(old(coins), done)
        decreases rest.Keys
      {
        var o :| o in rest;
        if rest[o].isDirty {
          if rest[o].coin.IsSpent() {
            coins := coins - {o};
          } else {
            coins := coins[o := rest[o].coin];
          }
        }
        WriteDbStep(old(coins), done, o, rest[o]);
        SplitStep(batch, done, rest, o);
        done := done[o := rest[o]];
        rest := rest - {o};
      }
      SplitDone(batch, done, rest);
    }

    /** The database applies a batch of coins and marks as a whole. */
    method WriteBatch(batch: EntryMap, best: int, heads: seq<int>)
      modifies this
      ensures OnDisk() == Disk(WriteDb(old(coins), batch), best, heads)
      ensures history == old(history) + [OnDisk()]
    {
      WriteCoins(batch);
      bestBlock, headBlocks := best, heads;
      history := history + [OnDisk()];
    }

    /** One more entry; a full batch is written, with the mark of the transition. */
    method WriteNext(ghost before: Disk, ghost child: EntryMap, ghost done: EntryMap, rest: EntryMap, batch: EntryMap,
                     o: OutPoint, isFull: bool, hashBlock: int, oldTip: int)
      returns (left: EntryMap)
      requires o in rest && oldTip == OldTip(before) && Written(before.coins, child, done, rest, batch, coins)
      modifies this
      ensures Written(before.coins, child, done[o := rest[o]], rest - {o}, left, coins)
      ensures history == old(history) +
        if !isFull then [] else [Disk(WriteDb(before.coins, done[o := rest[o]]), NULL_HASH, [hashBlock, oldTip])]
    {
      SplitStep(child, done, rest, o);
      WriteDbStep(coins, batch, o, rest[o]);
      WriteDbStep(before.coins, done, o, rest[o]);
      left := if rest[o].isDirty then batch[o := rest[o]] else batch;
      if isFull {
        WriteBatch(left, NULL_HASH, [hashBlock, oldTip]);
        EmptyMerge(map[], coins);
        left := map[];
      }
    }

    /** What the loop keeps; `past` is the history before it. */
    ghost predicate Writing(before: Disk, child: EntryMap, hashBlock: int, order: seq<OutPoint>, full: seq<bool>,
          rest: EntryMap, batch: EntryMap, past: seq<Disk>)
      reads this
    {
      && |order| + |rest| == |child| == |full| && (forall o :: o in order ==> o in child)
      && Written(before.coins, child, Visited(child, order), rest, batch, coins)
      && history == past + Batches(before, child, hashBlock, order, full)
    }

    method WriteEntry(ghost before: Disk, ghost child: EntryMap, hashBlock: int, oldTip: int,
          ghost order: seq<OutPoint>, full: seq<bool>, count: nat, rest: EntryMap, batch: EntryMap, o: OutPoint,
          ghost past: seq<Disk>)
      returns (left: EntryMap)
      requires o in rest && oldTip == OldTip(before) && count == |order| < |full|
      requires Writing(before, child, hashBlock, order, full, rest, batch, past)
      modifies this
      ensures Writing(before, child, hashBlock, order + [o], full, rest - {o}, left, past)
    {
      SplitStep(child, Visited(child, order), rest, o);
      RemoveSize(rest, o);
      BatchesNext(before, child, hashBlock, order, full, o);
      ghost var was, b := history, Batches(before, child, hashBlock, order, full);
      left := WriteNext(before, child, Visited(child, order), rest, batch, o, full[count], hashBlock, oldTip);
      JoinLast(past, b, was, history, Batches(before, child, hashBlock, order + [o], full));
    }

    lemma WritingStarts(child: EntryMap, hashBlock: int, full: seq<bool>)
      requires |full| == |child|
      ensures Writing(OnDisk(), child, hashBlock, [], full, child, map[], history)
    {
      EmptyMerge(map[], coins);
      assert Visited(child, []) == map[];
    }

    /** The dirty entries are written in batches, the last of which ends the
        transition. `full` tells after which entries a batch is full, and `order`
        in which order they are visited. */
    method BatchWrite(child: EntryMap, hashBlock: int, full: seq<bool>) returns (ghost order: seq<OutPoint>)
      requires MayWrite(OnDisk(), hashBlock) && |full| == |child|
      modifies this
      ensures |order| == |child| && forall o :: o in order <==> o in child
      ensures OnDisk() == Disk(WriteDb(old(coins), child), hashBlock, [])
      ensures history == old(history) + Batches(old(OnDisk()), child, hashBlock, order, full) + [OnDisk()]
    {
      ghost var before := OnDisk();
      var oldTip := bestBlock;
      if oldTip == NULL_HASH && |headBlocks| == 2 {
        oldTip := headBlocks[1];
      }
      var batch: EntryMap, rest, count: nat := map[], child, 0;
      order := [];
      WritingStarts(child, hashBlock, full);
      while rest != map[]
        invariant |order| == count && Writing(before, child, hashBlock, order, full, rest, batch, old(history))
        decreases |rest|
      {
        var o :| o in rest;
        RemoveSize(rest, o);
        batch := WriteEntry(before, child, hashBlock, oldTip, order, full, count, rest, batch, o, old(history));
        order := order + [o];
        rest, count := rest - {o}, count + 1;
      }
      WrittenAll(before.coins, child, Visited(child, order), rest, batch, coins);
      WriteBatch(batch, hashBlock, []);
    }
  }

  class CoinsViewCache {
    const parent: CoinsViewCache?
    const db: CoinsDb
    var cacheCoins: EntryMap
    var cachedCoinsUsage: int

    ghost const depth: nat
    ghost const Repr: set<object>

    /** The shape of the chain of views; fixed at construction. */
    ghost predicate Linked()
      decreases depth
    {
      && this in Repr
      && (parent == null ==> Repr == {this, db})
      && (parent != null ==>
            && parent.depth < depth
            && parent.db == db
            && this !in parent.Repr
            && Repr == parent.Repr + {this}
            && parent.Linked())
    }

    ghost function Abs(): View
      requires Linked()
      reads Repr, db
      decreases depth
    {
      Cache(if parent == null then Db(db.coins) else parent.Abs(), cacheCoins, cachedCoinsUsage)
    }

    constructor OverDb(db: CoinsDb)
      ensures Linked() && Abs() == Cache(Db(db.coins), map[], 0)
    {
      this.parent := null;
      this.db := db;
      cacheCoins := map[];
      cachedCoinsUsage := 0;
      depth := 0;
      Repr := {this, db};
    }

    constructor OverCache(base: CoinsViewCache)
      requires base.Linked()
      ensures Linked() && Abs() == Cache(base.Abs(), map[], 0)
    {
      this.parent := base;
      this.db := base.db;
      cacheCoins := map[];
      cachedCoinsUsage := 0;
      depth := base.depth + 1;
      Repr := base.Repr + {this};
      new;
      DbInRepr(base);
    }

    static lemma DbInRepr(c: CoinsViewCache)
      requires c.Linked()
      ensures c.db in c.Repr
      decreases c.depth
    {
      if c.parent != null { DbInRepr(c.parent); }
    }

    method FetchCoin(o: OutPoint) returns (coin: Option<Coin>)
      requires Linked()
      modifies Repr
      ensures Abs() == Fetch(old(Abs()), o).view && coin == Fetch(old(Abs()), o).coin
      decreases depth, 0
    {
      DbInRepr(this);
      if o in cacheCoins {
        return Some(cacheCoins[o].coin);
      }
      var tmp: Option<Coin>;
      ghost var below := Abs().base;
      if parent == null {
        tmp := if o in db.coins then Some(db.coins[o]) else None;
      } else {
        tmp := parent.GetCoin(o);
      }
      assert Abs() == Cache(Get(below, o).view, old(cacheCoins), old(cachedCoinsUsage)) && tmp == Get(below, o).coin;
      if tmp.None? {
        return None;
      }
      cacheCoins := cacheCoins[o := Entry(tmp.value, false, tmp.value.IsSpent())];
      cachedCoinsUsage := cachedCoinsUsage + tmp.value.DynamicMemoryUsage();
      return tmp;
    }

    method GetCoin(o: OutPoint) returns (coin: Option<Coin>)
      requires Linked()
      modifies Repr
      ensures Abs() == Get(old(Abs()), o).view && coin == Get(old(Abs()), o).coin
      decreases depth, 1
    {
      coin := FetchCoin(o);
      if coin.Some? && coin.value.IsSpent() {
        coin := None;
      }
    }

    /** On the throw the entry is untouched, but its memory has already been
        subtracted from the running total. */
    method AddCoin(o: OutPoint, coin: Coin, possibleOverwrite: bool) returns (ok: bool)
      requires Linked() && !coin.IsSpent()
      modifies this
      ensures ok <==> Add(old(Abs()), o, coin, possibleOverwrite).Some?
      ensures ok ==> Abs() == Add(old(Abs()), o, coin, possibleOverwrite).value
      ensures !ok ==> o in cacheCoins && cacheCoins == old(cacheCoins)
                      && cachedCoinsUsage == old(cachedCoinsUsage) - cacheCoins[o].coin.DynamicMemoryUsage()
    {
      DbInRepr(this);
      if coin.unspendable { return true; }
      var inserted := o !in cacheCoins;
      var entry := if inserted then Entry(CLEARED, false, false) else cacheCoins[o];
      var markFresh := false;
      if !inserted {
        cachedCoinsUsage := cachedCoinsUsage - entry.coin.DynamicMemoryUsage();
      }
      if !possibleOverwrite {
        if !entry.coin.IsSpent() {
          return false;
        }
        markFresh := !entry.isDirty;
      }
      cacheCoins := cacheCoins[o := Entry(coin, true, entry.isFresh || markFresh)];
      cachedCoinsUsage := cachedCoinsUsage + coin.DynamicMemoryUsage();
      return true;
    }

    method SpendCoin(o: OutPoint) returns (ok: bool, moved: Coin)
      requires Linked()
      modifies Repr
      ensures Spent(Abs(), ok, moved) == Spend(old(Abs()), o)
    {
      var found := FetchCoin(o);
      if found.None? || o !in cacheCoins {
        return false, CLEARED;
      }
      var entry := cacheCoins[o];
      cachedCoinsUsage := cachedCoinsUsage - entry.coin.DynamicMemoryUsage();
      moved := entry.coin;
      if entry.isFresh {
        cacheCoins := cacheCoins - {o};
      } else {
        cacheCoins := cacheCoins[o := Entry(CLEARED, true, false)];
      }
      return true, moved;
    }

    method UncacheCoin(o: OutPoint)
      requires Linked()
      modifies this
      ensures Abs() == Uncache(old(Abs()), o)
    {
      if o in cacheCoins && !cacheCoins[o].isDirty && !cacheCoins[o].isFresh {
        cachedCoinsUsage := cachedCoinsUsage - cacheCoins[o].coin.DynamicMemoryUsage();
        cacheCoins := cacheCoins - {o};
      }
    }

    /** One round of BatchWrite; false is the thrown "FRESH flag misapplied". */
    method MergeEntry(o: OutPoint, e: Entry) returns (ok: bool)
      requires cachedCoinsUsage == TotalUsage(cacheCoins)
      modifies this
      ensures ok <==> !Misapplied(old(cacheCoins), o, e)
      ensures ok ==> cachedCoinsUsage == TotalUsage(cacheCoins)
      ensures ok ==> cacheCoins == Replace(old(cacheCoins), o, MergeOne(old(cacheCoins), o, e))
    {
      if o in cacheCoins { TotalUsageRemove(cacheCoins, o); }
      if e.isDirty {
        if o !in cacheCoins {
          if !(e.isFresh && e.coin.IsSpent()) {
            TotalUsagePut(cacheCoins, o, Entry(e.coin, true, e.isFresh));
            cacheCoins := cacheCoins[o := Entry(e.coin, true, e.isFresh)];
            cachedCoinsUsage := cachedCoinsUsage + e.coin.DynamicMemoryUsage();
          }
        } else {
          var us := cacheCoins[o];
          if e.isFresh && !us.coin.IsSpent() {
            return false;
          }
          cachedCoinsUsage := cachedCoinsUsage - us.coin.DynamicMemoryUsage();
          if us.isFresh && e.coin.IsSpent() {
            cacheCoins := cacheCoins - {o};
          } else {
            TotalUsagePut(cacheCoins, o, Entry(e.coin, true, us.isFresh));
            cacheCoins := cacheCoins[o := Entry(e.coin, true, us.isFresh)];
            cachedCoinsUsage := cachedCoinsUsage + e.coin.DynamicMemoryUsage();
          }
        }
      }
      return true;
    }

    /** The loop visits the child's entries in an arbitrary order; the outcome
        does not depend on it. */
    method BatchWriteFrom(child: EntryMap) returns (ok: bool)
      requires Linked() && cachedCoinsUsage == TotalUsage(cacheCoins)
      modifies this
      ensures ok <==> BatchWrite(old(Abs()), child).Some?
      ensures ok ==> Abs() == BatchWrite(old(Abs()), child).value
    {
      ok := MergeAll(child);
    }

    method MergeAll(child: EntryMap) returns (ok: bool)
      requires cachedCoinsUsage == TotalUsage(cacheCoins)
      modifies this
      ensures ok <==> NoneMisapplied(old(cacheCoins), child)
      ensures ok ==> cacheCoins == Merge(old(cacheCoins), child) && cachedCoinsUsage == TotalUsage(cacheCoins)
    {
      ghost var ours := cacheCoins;
      ghost var done: EntryMap := map[];
      var rest := child;
      EmptyMerge(ours, map[]);
      while rest != map[]
        invariant Split(child, done, rest)
        invariant cacheCoins == Merge(ours, done)
        invariant NoneMisapplied(ours, done)
        invariant cachedCoinsUsage == TotalUsage(cacheCoins)
        decreases rest.Keys
      {
        var o :| o in rest;
        SplitStep(child, done, rest, o);
        MergeStep(ours, done, o, rest[o]);
        ok := MergeEntry(o, rest[o]);
        if !ok { return; }
        done := done[o := rest[o]];
        rest := rest - {o};
      }
      SplitDone(child, done, rest);
      return true;
    }

    method FlushCache(hashBlock: int, full: seq<bool>) returns (ok: bool)
      requires Linked() && Valid(Abs()) &&
        (parent == null ==> MayWrite(db.OnDisk(), hashBlock) && |full| == |cacheCoins|)
      modifies Repr
      ensures ok && Flush(old(Abs())).Some? && Abs() == Flush(old(Abs())).value
      ensures Valid(Abs()) && CoinsOf(Abs()) == old(CoinsOf(Abs())) && CoinsOf(Abs().base) == old(CoinsOf(Abs()))
    {
      FlushRefinesCopy(Abs());
      DbInRepr(this);
      if parent == null {
        ghost var order := db.BatchWrite(cacheCoins, hashBlock, full);
        ok := true;
      } else {
        DbInRepr(parent);
        assert Valid(parent.Abs());
        ok := parent.BatchWriteFrom(cacheCoins);
      }
      cacheCoins := map[];
      cachedCoinsUsage := 0;
    }
  }

  /** A loop over a map: what it has visited and what is left. */
  ghost predicate Split(child: EntryMap, done: EntryMap, rest: EntryMap) {
    && child.Keys == done.Keys + rest.Keys
    && done.Keys !! rest.Keys
    && (forall o :: o in done ==> done[o] == child[o])
    && (forall o :: o in rest ==> rest[o] == child[o])
  }

  lemma SplitStep(child: EntryMap, done: EntryMap, rest: EntryMap, o: OutPoint)
    requires Split(child, done, rest) && o in rest
    ensures o !in done && o in child && child[o] == rest[o]
    ensures Split(child, done[o := rest[o]], rest - {o})
  {
    var done' := done[o := rest[o]];
    var rest' := rest - {o};
    assert rest'.Keys == rest.Keys - {o};
    assert done'.Keys == done.Keys + {o};
    assert child.Keys == done'.Keys + rest'.Keys;
  }

  lemma SplitDone(child: EntryMap, done: EntryMap, rest: EntryMap)
    requires Split(child, done, rest) && rest == map[]
    ensures done == child
  {
  }

  lemma RemoveSize(entries: EntryMap, o: OutPoint)
    requires o in entries
    ensures |entries - {o}| == |entries| - 1
  {
    assert |entries| == |entries.Keys| && (entries - {o}).Keys == entries.Keys - {o};
    assert |entries - {o}| == |(entries - {o}).Keys|;
  }

  lemma EmptyMerge(ours: EntryMap, coins: CoinMap)
    ensures Merge(ours, map[]) == ours && WriteDb(coins, map[]) == coins
  {
  }

  lemma WriteDbStep(coins: CoinMap, done: EntryMap, o: OutPoint, e: Entry)
    requires o !in done
    ensures var before := WriteDb(coins, done);
            WriteDb(coins, done[o := e]) ==
            if !e.isDirty then before
            else if e.coin.IsSpent() then before - {o}
            else before[o := e.coin]
  {
  }

  function Replace(entries: EntryMap, o: OutPoint, e: Option<Entry>): EntryMap {
    match e
    case None => entries - {o}
    case Some(e) => entries[o := e]
  }

  lemma MergeStep(ours: EntryMap, done: EntryMap, o: OutPoint, e: Entry)
    requires o !in done
    ensures Merge(ours, done[o := e]) == Replace(Merge(ours, done), o, MergeOne(Merge(ours, done), o, e))
    ensures Misapplied(Merge(ours, done), o, e) == Misapplied(ours, o, e)
    ensures NoneMisapplied(ours, done[o := e]) <==> NoneMisapplied(ours, done) && !Misapplied(ours, o, e)
  {
  }
}
