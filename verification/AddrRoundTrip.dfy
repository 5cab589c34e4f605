/**
  Writing consistent tables and reading them back gives the same tables, up to
  the numbers of the entries (src/addrman.h, Serialize then Unserialize).
*/
module AddrRoundTrip {

  import opened AddrTables
  import opened AddrStore
  import opened AddrReload
  import Ops = AddrMan

  // ----- The order in which entries are written -----

  ghost function ListedBelow(m: InfoMap, n: nat, tried: bool): set<int> {
    set id | id in m && 0 <= id < n && Listed(m, id, tried)
  }

  lemma {:induction false} IdsCount(m: InfoMap, n: nat, tried: bool)
    ensures |Ids(m, n, tried)| == |ListedBelow(m, n, tried)|
  {
    if n == 0 {
      assert ListedBelow(m, n, tried) == {};
    } else {
      IdsCount(m, n - 1, tried);
      if Listed(m, n - 1, tried) {
        assert ListedBelow(m, n, tried) == ListedBelow(m, n - 1, tried) + {n - 1};
      } else {
        assert ListedBelow(m, n, tried) == ListedBelow(m, n - 1, tried);
      }
    }
  }

  /** A listed id stands at its rank. */
  lemma {:induction false} IdsAt(m: InfoMap, n: nat, tried: bool, id: nat)
    requires id < n && Listed(m, id, tried)
    ensures |Ids(m, id, tried)| < |Ids(m, n, tried)| && Ids(m, n, tried)[|Ids(m, id, tried)|] == id
  {
    if id < n - 1 { IdsAt(m, n - 1, tried, id); }
  }

  /** What stands at a place is listed and has that rank. */
  lemma {:induction false} IdsBack(m: InfoMap, n: nat, tried: bool, k: nat)
    requires k < |Ids(m, n, tried)|
    ensures var id := Ids(m, n, tried)[k]; 0 <= id < n && Listed(m, id, tried) && |Ids(m, id, tried)| == k
  {
    if k < |Ids(m, n - 1, tried)| { IdsBack(m, n - 1, tried, k); }
  }

  lemma ListedIs(h: Hasher, s: State, id: int, tried: bool)
    requires Inv(h, s) && id in s.mapInfo
    ensures Listed(s.mapInfo, id, tried) <==> s.mapInfo[id].fInTried == tried
  {
    assert RefOk(s.mapInfo, s.vvNew, {}, id);
  }

  lemma SavedCounts(h: Hasher, s: State)
    requires Inv(h, s)
    ensures |Ids(s.mapInfo, s.nIdCount, false)| == s.nNew && |Ids(s.mapInfo, s.nIdCount, true)| == s.nTried
  {
    var m, n := s.mapInfo, s.nIdCount;
    IdsCount(m, n, false);
    IdsCount(m, n, true);
    forall id | id in m ensures Listed(m, id, false) <==> !m[id].fInTried { ListedIs(h, s, id, false); }
    assert ListedBelow(m, n, false) == NewIds(m);
    assert ListedBelow(m, n, true) == TriedIds(m);
  }

  // ----- The counts fit the tables -----

  ghost function ValuesOf(cells: seq<int>, k: nat): set<int>
    requires k <= |cells|
  {
    if k == 0 then {} else ValuesOf(cells, k - 1) + {cells[k - 1]}
  }

  lemma {:induction false} ValuesBound(cells: seq<int>, k: nat)
    requires k <= |cells|
    ensures |ValuesOf(cells, k)| <= k
    ensures forall i :: 0 <= i < k ==> cells[i] in ValuesOf(cells, k)
  {
    if k > 0 { ValuesBound(cells, k - 1); }
  }

  lemma SubsetSize(a: set<int>, b: set<int>)
    requires a <= b
    ensures |a| <= |b|
  {
    assert b == a + (b - a);
  }

  lemma CountsFit(h: Hasher, s: State)
    requires Inv(h, s)
    ensures s.nNew <= NEW_CELLS && s.nTried <= TRIED_CELLS
  {
    ValuesBound(s.vvNew, NEW_CELLS);
    forall id | id in NewIds(s.mapInfo) ensures id in ValuesOf(s.vvNew, NEW_CELLS) {
      assert RefOk(s.mapInfo, s.vvNew, {}, id);
      assert Cells(s.vvNew, id) != {};
      var i :| i in Cells(s.vvNew, id);
    }
    SubsetSize(NewIds(s.mapInfo), ValuesOf(s.vvNew, NEW_CELLS));
    TriedFit(h, s);
  }

  lemma TriedFit(h: Hasher, s: State)
    requires TriedOk(h, s.mapInfo, s.vvTried) && s.nTried == |TriedIds(s.mapInfo)|
    ensures s.nTried <= TRIED_CELLS
  {
    ValuesBound(s.vvTried, TRIED_CELLS);
    forall id | id in TriedIds(s.mapInfo) ensures id in ValuesOf(s.vvTried, TRIED_CELLS) {
      assert s.vvTried[TriedSlot(h, s.mapInfo[id].service)] == id;
    }
    SubsetSize(TriedIds(s.mapInfo), ValuesOf(s.vvTried, TRIED_CELLS));
  }

  // ----- Old and new numbers -----

  /** The id an entry has after reading: new entries come first. */
  ghost function Renumber(s: State, id: int): int
    requires id in s.mapInfo && id >= 0
  {
    if s.mapInfo[id].fInTried then s.nNew + |Ids(s.mapInfo, id, true)| else |Ids(s.mapInfo, id, false)|
  }

  ghost predicate Numbered(s: State) {
    && s.nIdCount >= 0
    && |Ids(s.mapInfo, s.nIdCount, false)| == s.nNew && |Ids(s.mapInfo, s.nIdCount, true)| == s.nTried
  }

  /** The id that gets the number k. */
  ghost function OldId(s: State, k: nat): int
    requires Numbered(s) && k < s.nNew + s.nTried
  {
    if k < s.nNew then Ids(s.mapInfo, s.nIdCount, false)[k] else Ids(s.mapInfo, s.nIdCount, true)[k - s.nNew]
  }

  lemma OldIdIs(h: Hasher, s: State, k: nat)
    requires Inv(h, s) && Numbered(s) && k < s.nNew + s.nTried
    ensures var id := OldId(s, k);
      id in s.mapInfo && id >= 0 && (s.mapInfo[id].fInTried <==> k >= s.nNew) && Renumber(s, id) == k
  {
    if k < s.nNew {
      IdsBack(s.mapInfo, s.nIdCount, false, k);
      ListedIs(h, s, OldId(s, k), false);
    } else {
      IdsBack(s.mapInfo, s.nIdCount, true, k - s.nNew);
    }
  }

  lemma RenumberIs(h: Hasher, s: State, id: int)
    requires Inv(h, s) && Numbered(s) && id in s.mapInfo
    ensures 0 <= Renumber(s, id) < s.nNew + s.nTried && OldId(s, Renumber(s, id)) == id
    ensures s.mapInfo[id].fInTried <==> Renumber(s, id) >= s.nNew
  {
    var tried := s.mapInfo[id].fInTried;
    ListedIs(h, s, id, tried);
    IdsAt(s.mapInfo, s.nIdCount, tried, id);
  }

  ghost predicate Saves(h: Hasher, s: State, img: Image) {
    Inv(h, s) && Numbered(s) && img == Save(h, s)
  }

  lemma SavesIs(h: Hasher, s: State)
    requires Inv(h, s)
    ensures Saves(h, s, Save(h, s))
  {
    SavedCounts(h, s);
  }

  lemma SavedRecord(h: Hasher, s: State, img: Image, k: nat)
    requires Saves(h, s, img) && k < s.nNew + s.nTried
    ensures |Records(img)| == s.nNew + s.nTried && OldId(s, k) in s.mapInfo
    ensures Records(img)[k] == Saved(s.mapInfo[OldId(s, k)])
  {
    OldIdIs(h, s, k);
  }

  lemma {:induction false} AddrsFrom(rs: seq<Record>, k: nat, a: NetAddr) returns (j: nat)
    requires k <= |rs| && a in Addrs(rs, k)
    ensures j < k && rs[j].service.addr == a
  {
    if rs[k - 1].service.addr == a { j := k - 1; } else { j := AddrsFrom(rs, k - 1, a); }
  }

  lemma SameAddr(h: Hasher, s: State, img: Image, j: nat, k: nat)
    requires Saves(h, s, img) && j < s.nNew + s.nTried && k < s.nNew + s.nTried
    requires OldId(s, j) in s.mapInfo && OldId(s, k) in s.mapInfo
    requires s.mapInfo[OldId(s, j)].service.addr == s.mapInfo[OldId(s, k)].service.addr
    ensures j == k
  {
    OldIdIs(h, s, j);
    OldIdIs(h, s, k);
    assert s.mapAddr[s.mapInfo[OldId(s, j)].service.addr] == OldId(s, j);
  }

  lemma SavedFresh(h: Hasher, s: State, img: Image, k: nat)
    requires Saves(h, s, img) && k < |Records(img)|
    ensures AddrFresh(Records(img), k)
  {
    var a := Records(img)[k].service.addr;
    if a in Addrs(Records(img), k) {
      var j := AddrsFrom(Records(img), k, a);
      SavedRecord(h, s, img, j);
      SavedRecord(h, s, img, k);
      SameAddr(h, s, img, j, k);
    }
  }

  lemma SavedTimes(h: Hasher, s: State, img: Image, k: nat)
    requires Saves(h, s, img) && k < |Records(img)|
    ensures Records(img)[k].nLastSuccess >= 0
    ensures k >= s.nNew ==> Records(img)[k].nLastSuccess > 0
  {
    SavedRecord(h, s, img, k);
    OldIdIs(h, s, k);
  }

  /** What is written is sound, so what is read back is consistent. */
  lemma SavedSound(h: Hasher, s: State, img: Image)
    requires Saves(h, s, img)
    ensures Sound(img) && Bounded(img)
  {
    CountsFit(h, s);
    forall k | 0 <= k < |Records(img)| ensures AddrFresh(Records(img), k) { SavedFresh(h, s, img, k); }
    forall k | 0 <= k < |img.news| ensures img.news[k].nLastSuccess >= 0 {
      SavedTimes(h, s, img, k);
      assert Records(img)[k] == img.news[k];
    }
    forall k | 0 <= k < |img.trieds| ensures img.trieds[k].nLastSuccess > 0 {
      SavedTimes(h, s, img, s.nNew + k);
      assert Records(img)[s.nNew + k] == img.trieds[k];
    }
  }

  // ----- Reading the entries -----

  ghost predicate NewLoaded(img: Image, t: State, k: nat)
    requires k <= |img.news|
  {
    && t.mapInfo.Keys == Below(k) && |t.vRandom| == k && t.nIdCount == k
    && (forall n :: 0 <= n < k ==> t.mapInfo[n] == Restored(img.news[n], n))
    && (forall i :: 0 <= i < |t.vvNew| ==> t.vvNew[i] == EMPTY)
  }

  lemma {:induction false} LoadNewIs(img: Image, k: nat)
    requires Usable(img) && k <= |img.news|
    ensures NewLoaded(img, LoadNew(img, k), k)
  {
    if k > 0 { LoadNewIs(img, k - 1); }
  }

  /** Every record so far has become the entry with its own number. */
  ghost predicate TriedLoaded(img: Image, t: State, k: nat)
    requires k <= |img.trieds|
  {
    var n0 := |img.news|;
    && t.mapInfo.Keys == Below(n0 + k) && |t.vRandom| == n0 + k && t.nIdCount == n0 + k && t.nTried == img.nTried
    && (forall n :: 0 <= n < n0 ==> t.mapInfo[n] == Restored(img.news[n], n))
    && (forall n :: n0 <= n < n0 + k ==> t.mapInfo[n] == Restored(img.trieds[n - n0], n).(fInTried := true))
    && (forall i :: 0 <= i < |t.vvNew| ==> t.vvNew[i] == EMPTY)
  }

  lemma AdmitTriedIs(img: Image, t: State, k: nat, cell: nat)
    requires k < |img.trieds| && TriedLoaded(img, t, k) && cell < |t.vvTried|
    ensures TriedLoaded(img, AdmitTried(t, img.trieds[k], cell), k + 1)
  {
  }

  /** Two tried entries of consistent tables never share a cell. */
  lemma OneTriedPerCell(h: Hasher, s: State, a: int, b: int)
    requires Inv(h, s) && a in s.mapInfo && b in s.mapInfo && s.mapInfo[a].fInTried && s.mapInfo[b].fInTried
    requires TriedSlot(h, s.mapInfo[a].service) == TriedSlot(h, s.mapInfo[b].service)
    ensures a == b
  {
  }

  lemma TriedRecord(h: Hasher, s: State, img: Image, n: nat)
    requires Saves(h, s, img) && s.nNew <= n < s.nNew + s.nTried
    ensures |img.news| == s.nNew && |img.trieds| == s.nTried
    ensures var id := OldId(s, n);
      id in s.mapInfo && s.mapInfo[id].fInTried && img.trieds[n - s.nNew] == Saved(s.mapInfo[id])
  {
    SavedRecord(h, s, img, n);
    OldIdIs(h, s, n);
  }

  lemma SameCell(h: Hasher, s: State, img: Image, j: nat, k: nat)
    requires Saves(h, s, img) && s.nNew <= j < s.nNew + s.nTried && s.nNew <= k < s.nNew + s.nTried
    requires |img.trieds| == s.nTried
    requires TriedSlot(h, img.trieds[j - s.nNew].service) == TriedSlot(h, img.trieds[k - s.nNew].service)
    ensures j == k
  {
    TriedRecord(h, s, img, j);
    TriedRecord(h, s, img, k);
    OneTriedPerCell(h, s, OldId(s, j), OldId(s, k));
    OldIdIs(h, s, j);
    OldIdIs(h, s, k);
  }

  ghost predicate CellsDiffer(img: Image, j: int, k: int)
    requires 0 <= j < k < |img.trieds|
  {
    TriedSlot(img.key, img.trieds[j].service) != TriedSlot(img.key, img.trieds[k].service)
  }

  /** No two stored tried records want the same cell. */
  ghost predicate NoCollisions(img: Image) {
    forall j, k :: 0 <= j < k < |img.trieds| ==> CellsDiffer(img, j, k)
  }

  lemma SavedNoCollisions(h: Hasher, s: State, img: Image)
    requires Saves(h, s, img)
    ensures NoCollisions(img)
  {
    forall j, k | 0 <= j < k < |img.trieds| ensures CellsDiffer(img, j, k) {
      if !CellsDiffer(img, j, k) { SameCell(h, s, img, s.nNew + j, s.nNew + k); }
    }
  }

  /** The tried cells in use belong to the records so far. */
  ghost predicate CellsFrom(img: Image, t: State, k: nat)
    requires k <= |img.trieds|
  {
    && |t.vvTried| == TRIED_CELLS
    && forall i :: 0 <= i < |t.vvTried| && t.vvTried[i] != EMPTY ==>
         && |img.news| <= t.vvTried[i] < |img.news| + k
         && TriedSlot(img.key, img.trieds[t.vvTried[i] - |img.news|].service) == i
  }

  lemma CellFree(img: Image, t: State, k: nat)
    requires k < |img.trieds| && CellsFrom(img, t, k) && NoCollisions(img)
    ensures t.vvTried[TriedSlot(img.key, img.trieds[k].service)] == EMPTY
  {
    var j := t.vvTried[TriedSlot(img.key, img.trieds[k].service)] - |img.news|;
    assert 0 <= j < k ==> CellsDiffer(img, j, k);
  }

  lemma AdmitTriedCells(img: Image, t: State, k: nat, cell: nat)
    requires k < |img.trieds| && CellsFrom(img, t, k) && t.nIdCount == |img.news| + k
    requires cell == TriedSlot(img.key, img.trieds[k].service)
    ensures CellsFrom(img, AdmitTried(t, img.trieds[k], cell), k + 1)
  {
  }

  lemma LoadTriedNext(img: Image, t: State, k: nat)
    requires k < |img.trieds| && NoCollisions(img) && TriedLoaded(img, t, k) && CellsFrom(img, t, k)
    ensures TriedLoaded(img, LoadTriedRecord(img.key, t, img.trieds[k]), k + 1)
    ensures CellsFrom(img, LoadTriedRecord(img.key, t, img.trieds[k]), k + 1)
  {
    var cell := TriedSlot(img.key, img.trieds[k].service);
    CellFree(img, t, k);
    AdmitTriedIs(img, t, k, cell);
    AdmitTriedCells(img, t, k, cell);
  }

  lemma LoadTriedFrom(img: Image)
    requires Usable(img) && Framed(img) && img.nNew >= 0
    ensures TriedLoaded(img, LoadTried(img, 0), 0) && CellsFrom(img, LoadTried(img, 0), 0)
  {
    LoadNewIs(img, |img.news|);
    LoadNewCells(img, |img.news|);
  }

  lemma {:induction false} LoadNewCells(img: Image, k: nat)
    requires k <= |img.news|
    ensures LoadNew(img, k).vvTried == Ops.Cleared().vvTried
  {
    if k > 0 { LoadNewCells(img, k - 1); }
  }

  ghost predicate TriedRestored(img: Image, t: State, k: int) {
    0 <= k <= |img.trieds| && TriedLoaded(img, t, k) && CellsFrom(img, t, k)
  }

  lemma {:induction false} TriedByRecord(img: Image, k: nat, p: (State, int) -> bool)
    requires Framed(img) && k <= |img.trieds| && p(LoadTried(img, 0), 0)
    requires forall t, j :: 0 <= j < k && Ready(img, t) && p(t, j) ==>
      p(LoadTriedRecord(img.key, t, img.trieds[j]), j + 1)
    ensures p(LoadTried(img, k), k)
  {
    if k > 0 { TriedByRecord(img, k - 1, p); }
  }

  lemma LoadTriedIs(img: Image)
    requires Usable(img) && Framed(img) && img.nNew >= 0 && NoCollisions(img)
    ensures TriedRestored(img, LoadTried(img, |img.trieds|), |img.trieds|)
  {
    LoadTriedFrom(img);
    forall t, j | 0 <= j < |img.trieds| && TriedRestored(img, t, j)
      ensures TriedRestored(img, LoadTriedRecord(img.key, t, img.trieds[j]), j + 1)
    {
      LoadTriedNext(img, t, j);
    }
    TriedByRecord(img, |img.trieds|, (t, j) => TriedRestored(img, t, j));
  }

  // ----- Reading the positions -----

  ghost function RenumberCell(s: State, id: int): int {
    if id in s.mapInfo && id >= 0 then Renumber(s, id) else EMPTY
  }

  /** How many of the first c cells refer to an id. */
  ghost function RefsBelow(vvNew: seq<int>, id: int, c: nat): nat
    requires c <= |vvNew|
  {
    if c == 0 then 0 else RefsBelow(vvNew, id, c - 1) + if vvNew[c - 1] == id then 1 else 0
  }

  ghost function CellsBelow(vvNew: seq<int>, id: int, c: nat): set<int>
    requires c <= |vvNew|
  {
    set i | 0 <= i < c && vvNew[i] == id
  }

  lemma {:induction false} RefsAreCells(vvNew: seq<int>, id: int, c: nat)
    requires c <= |vvNew|
    ensures RefsBelow(vvNew, id, c) == |CellsBelow(vvNew, id, c)|
  {
    if c == 0 {
      assert CellsBelow(vvNew, id, c) == {};
    } else {
      RefsAreCells(vvNew, id, c - 1);
      assert CellsBelow(vvNew, id, c) == CellsBelow(vvNew, id, c - 1) + if vvNew[c - 1] == id then {c - 1} else {};
    }
  }

  lemma RefsAll(vvNew: seq<int>, id: int)
    ensures RefsBelow(vvNew, id, |vvNew|) == |Cells(vvNew, id)|
  {
    RefsAreCells(vvNew, id, |vvNew|);
    assert CellsBelow(vvNew, id, |vvNew|) == Cells(vvNew, id);
  }

  lemma {:induction false} RefsGrow(vvNew: seq<int>, id: int, c: nat, d: nat)
    requires c <= d <= |vvNew|
    ensures RefsBelow(vvNew, id, c) <= RefsBelow(vvNew, id, d)
  {
    if c < d { RefsGrow(vvNew, id, c, d - 1); }
  }

  /** The first c cells have been restored; nothing but the new table and the
      reference counts has changed since t. */
  ghost predicate CellsRestored(s: State, u: State, c: nat)
    requires c <= |s.vvNew|
  {
    && |u.vvNew| == |s.vvNew|
    && (forall i :: 0 <= i < c ==> u.vvNew[i] == RenumberCell(s, s.vvNew[i]))
    && (forall i :: c <= i < |u.vvNew| ==> u.vvNew[i] == EMPTY)
  }

  ghost predicate RefsRestored(s: State, t: State, u: State, c: nat)
    requires c <= |s.vvNew| && Numbered(s)
  {
    && u.mapInfo.Keys == t.mapInfo.Keys == Below(s.nNew + s.nTried)
    && forall n :: 0 <= n < s.nNew + s.nTried ==>
         u.mapInfo[n] == t.mapInfo[n].(nRefCount := if n < s.nNew then RefsBelow(s.vvNew, OldId(s, n), c) else 0)
  }

  ghost predicate Restoring(s: State, t: State, u: State, c: nat)
    requires c <= |s.vvNew| && Numbered(s)
  {
    CellsRestored(s, u, c) && RefsRestored(s, t, u, c) && u == t.(mapInfo := u.mapInfo, vvNew := u.vvNew)
  }

  /** A filled cell names an entry that is not tried and belongs there. */
  lemma FilledCell(h: Hasher, s: State, c: nat)
    requires Inv(h, s) && Numbered(s) && c < |s.vvNew| && s.vvNew[c] != EMPTY
    ensures var id := s.vvNew[c];
      && id in s.mapInfo && id >= 0 && !s.mapInfo[id].fInTried &&
        NewSlot(h, s.mapInfo[id].service, c / BUCKET_SIZE) == c
      && Renumber(s, id) == Rank(s.mapInfo, id) < s.nNew && OldId(s, Rank(s.mapInfo, id)) == id
      && RefsBelow(s.vvNew, id, c) < NEW_BUCKETS_PER_ADDRESS
  {
    var id := s.vvNew[c];
    assert NewCellOk(h, s.mapInfo, s.vvNew, c);
    RenumberIs(h, s, id);
    assert RefOk(s.mapInfo, s.vvNew, {}, id);
    RefsAll(s.vvNew, id);
    RefsGrow(s.vvNew, id, c + 1, |s.vvNew|);
  }

  lemma RefsPut(s: State, t: State, u: State, c: nat, n: nat)
    requires c < |s.vvNew| && Numbered(s) && RefsRestored(s, t, u, c)
    requires n < s.nNew && n in u.mapInfo && c < |u.vvNew| && OldId(s, n) == s.vvNew[c]
    requires forall k :: 0 <= k < s.nNew && OldId(s, k) == s.vvNew[c] ==> k == n
    ensures RefsRestored(s, t, PutNew(u, c, n), c + 1)
  {
  }

  lemma RefsSkip(s: State, t: State, u: State, c: nat)
    requires c < |s.vvNew| && Numbered(s) && RefsRestored(s, t, u, c)
    requires forall k :: 0 <= k < s.nNew ==> OldId(s, k) != s.vvNew[c]
    ensures RefsRestored(s, t, u, c + 1)
  {
  }

  ghost predicate ServicesKept(s: State, t: State)
    requires Numbered(s)
  {
    forall n :: 0 <= n < s.nNew + s.nTried ==>
      n in t.mapInfo && OldId(s, n) in s.mapInfo && t.mapInfo[n].service == s.mapInfo[OldId(s, n)].service
  }

  lemma OldIdsDiffer(h: Hasher, s: State, n: nat, k: nat)
    requires Inv(h, s) && Numbered(s) && n < s.nNew && k < s.nNew && OldId(s, k) == OldId(s, n)
    ensures k == n
  {
    OldIdIs(h, s, n);
    OldIdIs(h, s, k);
  }

  lemma RestorePut(h: Hasher, s: State, t: State, u: State, c: nat, n: nat)
    requires Inv(h, s) && Numbered(s) && c < |s.vvNew| && s.vvNew[c] != EMPTY && Restoring(s, t, u, c)
    requires n == Rank(s.mapInfo, s.vvNew[c])
    ensures n in u.mapInfo && Restoring(s, t, PutNew(u, c, n), c + 1)
  {
    FilledCell(h, s, c);
    assert n in Below(s.nNew + s.nTried);
    forall k | 0 <= k < s.nNew && OldId(s, k) == s.vvNew[c] ensures k == n { OldIdsDiffer(h, s, n, k); }
    RefsPut(s, t, u, c, n);
  }

  lemma RestoreSkip(h: Hasher, s: State, t: State, u: State, c: nat)
    requires Inv(h, s) && Numbered(s) && c < |s.vvNew| && s.vvNew[c] == EMPTY && Restoring(s, t, u, c)
    ensures Restoring(s, t, u, c + 1)
  {
    forall k | 0 <= k < s.nNew ensures OldId(s, k) != s.vvNew[c] { OldIdIs(h, s, k); }
    RefsSkip(s, t, u, c);
  }

  /** A stored index finds its cell free and its entry with room to spare. */
  lemma ReferPuts(h: Hasher, s: State, img: Image, t: State, u: State, c: nat, n: nat, bucket: nat)
    requires Saves(h, s, img) && c < |s.vvNew| && s.vvNew[c] != EMPTY && Restoring(s, t, u, c)
    requires ServicesKept(s, t) && Ready(img, u)
    requires n == Rank(s.mapInfo, s.vvNew[c]) && bucket == c / BUCKET_SIZE
    ensures n in u.mapInfo && Refer(img, u, bucket, n) == PutNew(u, c, n)
  {
    FilledCell(h, s, c);
    assert n in Below(s.nNew + s.nTried);
    assert u.mapInfo[n].service == s.mapInfo[OldId(s, n)].service;
    assert u.mapInfo[n].nRefCount == RefsBelow(s.vvNew, OldId(s, n), c);
  }

  lemma LoadRowOneMore(img: Image, u: State, bucket: nat, row: seq<int>, n: int)
    requires Ready(img, u)
    ensures LoadRow(img, u, bucket, row + [n]) == Refer(img, LoadRow(img, u, bucket, row), bucket, n)
  {
    assert (row + [n])[..|row|] == row;
  }

  /** A row built from cells is read cell by cell. */
  lemma {:induction false} RowByCells(img: Image, m: InfoMap, vvNew: seq<int>, u: State, bucket: nat, lo: nat, k: nat,
        p: (State, int) -> bool)
    requires Ready(img, u) && lo + k <= |vvNew| && p(u, lo)
    requires forall v, c :: lo <= c < lo + k && vvNew[c] == EMPTY && p(v, c) ==> p(v, c + 1)
    requires forall v, c :: lo <= c < lo + k && vvNew[c] != EMPTY && Ready(img, v) && p(v, c) ==>
               p(Refer(img, v, bucket, Rank(m, vvNew[c])), c + 1)
    ensures p(LoadRow(img, u, bucket, RowOf(m, vvNew, lo, k)), lo + k)
  {
    if k > 0 {
      RowByCells(img, m, vvNew, u, bucket, lo, k - 1, p);
      LoadRowOneMore(img, u, bucket, RowOf(m, vvNew, lo, k - 1), Rank(m, vvNew[lo + k - 1]));
    }
  }

  lemma {:induction false} RowsByRow(img: Image, k: nat, p: (State, int) -> bool)
    requires Framed(img) && k <= |img.rows| && p(LoadTried(img, |img.trieds|), 0)
    requires forall u, b :: 0 <= b < k && Ready(img, u) && p(u, b) ==> p(LoadRow(img, u, b, img.rows[b]), b + 1)
    ensures p(LoadRows(img, k), k)
  {
    if k > 0 { RowsByRow(img, k - 1, p); }
  }

  ghost predicate RestoringAt(s: State, t: State, u: State, c: int)
    requires Numbered(s)
  {
    0 <= c <= |s.vvNew| && Restoring(s, t, u, c)
  }

  lemma RestoreCell(h: Hasher, s: State, img: Image, t: State, v: State, c: nat, bucket: nat)
    requires Saves(h, s, img) && ServicesKept(s, t) && c < |s.vvNew| && bucket == c / BUCKET_SIZE
    requires Ready(img, v) && Restoring(s, t, v, c) && s.vvNew[c] != EMPTY
    ensures RestoringAt(s, t, Refer(img, v, bucket, Rank(s.mapInfo, s.vvNew[c])), c + 1)
  {
    ReferPuts(h, s, img, t, v, c, Rank(s.mapInfo, s.vvNew[c]), bucket);
    RestorePut(h, s, t, v, c, Rank(s.mapInfo, s.vvNew[c]));
  }

  lemma RowRestores(h: Hasher, s: State, img: Image, t: State, u: State, bucket: nat, lo: nat)
    requires Saves(h, s, img) && ServicesKept(s, t) && Ready(img, u)
    requires bucket < NEW_BUCKET_COUNT && lo == bucket * BUCKET_SIZE && RestoringAt(s, t, u, lo)
    ensures lo + BUCKET_SIZE <= |s.vvNew|
    ensures RestoringAt(s, t, LoadRow(img, u, bucket, RowOf(s.mapInfo, s.vvNew, lo, BUCKET_SIZE)), lo + BUCKET_SIZE)
  {
    forall v, c | lo <= c < lo + BUCKET_SIZE && s.vvNew[c] == EMPTY && RestoringAt(s, t, v, c)
      ensures RestoringAt(s, t, v, c + 1)
    {
      RestoreSkip(h, s, t, v, c);
    }
    forall v, c | lo <= c < lo + BUCKET_SIZE && s.vvNew[c] != EMPTY && Ready(img, v) && RestoringAt(s, t, v, c)
      ensures RestoringAt(s, t, Refer(img, v, bucket, Rank(s.mapInfo, s.vvNew[c])), c + 1)
    {
      assert c / BUCKET_SIZE == bucket;
      RestoreCell(h, s, img, t, v, c, bucket);
    }
    RowByCells(img, s.mapInfo, s.vvNew, u, bucket, lo, BUCKET_SIZE, (v, c) => RestoringAt(s, t, v, c));
  }

  lemma SavedRow(h: Hasher, s: State, img: Image, b: nat)
    requires Saves(h, s, img) && b < NEW_BUCKET_COUNT
    ensures b < |img.rows| && b * BUCKET_SIZE + BUCKET_SIZE <= |s.vvNew|
    ensures img.rows[b] == RowOf(s.mapInfo, s.vvNew, b * BUCKET_SIZE, BUCKET_SIZE)
  {
  }

  lemma RowRestoresAt(h: Hasher, s: State, img: Image, t: State, u: State, b: nat)
    requires Saves(h, s, img) && ServicesKept(s, t) && Ready(img, u) && b < |img.rows| == NEW_BUCKET_COUNT
    requires RestoringAt(s, t, u, b * BUCKET_SIZE)
    ensures RestoringAt(s, t, LoadRow(img, u, b, img.rows[b]), (b + 1) * BUCKET_SIZE)
  {
    SavedRow(h, s, img, b);
    RowRestores(h, s, img, t, u, b, b * BUCKET_SIZE);
  }

  lemma RowsRestore(h: Hasher, s: State, img: Image, t: State, n: nat)
    requires Saves(h, s, img) && Framed(img) && n == |img.rows| == NEW_BUCKET_COUNT
    requires t == LoadTried(img, |img.trieds|) && ServicesKept(s, t) && RestoringAt(s, t, t, 0)
    ensures RestoringAt(s, t, LoadRows(img, n), n * BUCKET_SIZE)
  {
    forall u, b | 0 <= b < n && Ready(img, u) && RestoringAt(s, t, u, b * BUCKET_SIZE)
      ensures RestoringAt(s, t, LoadRow(img, u, b, img.rows[b]), (b + 1) * BUCKET_SIZE)
    {
      RowRestoresAt(h, s, img, t, u, b);
    }
    RowsByRow(img, n, (u, b) => RestoringAt(s, t, u, b * BUCKET_SIZE));
  }

  // ----- The round trip -----

  /** What the file does not keep starts afresh. */
  ghost function Remembered(info: Info, n: int): Info {
    info.(nLastTry := 0, nLastCountAttempt := 0, nRandomPos := n)
  }

  lemma RestoreStarts(h: Hasher, s: State, img: Image, t: State)
    requires Saves(h, s, img) && |img.news| == s.nNew && |img.trieds| == s.nTried
    requires TriedLoaded(img, t, |img.trieds|) && |t.vvNew| == NEW_CELLS
    ensures ServicesKept(s, t) && RestoringAt(s, t, t, 0)
  {
    forall n | 0 <= n < s.nNew + s.nTried
      ensures n in t.mapInfo && OldId(s, n) in s.mapInfo && t.mapInfo[n].service == s.mapInfo[OldId(s, n)].service
    {
      assert n in Below(s.nNew + s.nTried);
      SavedRecord(h, s, img, n);
    }
  }

  /** The entry with number n is the old entry that got this number. */
  lemma EntryRestored(h: Hasher, s: State, img: Image, t: State, u: State, n: nat)
    requires Saves(h, s, img) && |img.news| == s.nNew && |img.trieds| == s.nTried && n < s.nNew + s.nTried
    requires TriedLoaded(img, t, |img.trieds|) && RefsRestored(s, t, u, |s.vvNew|)
    ensures OldId(s, n) in s.mapInfo && n in u.mapInfo
    ensures u.mapInfo[n] == Remembered(s.mapInfo[OldId(s, n)], n)
  {
    var id := OldId(s, n);
    SavedRecord(h, s, img, n);
    OldIdIs(h, s, n);
    assert n in Below(s.nNew + s.nTried);
    assert RefOk(s.mapInfo, s.vvNew, {}, id);
    RefsAll(s.vvNew, id);
  }

  ghost predicate EntriesRestored(s: State, u: State)
    requires Numbered(s)
  {
    && u.mapInfo.Keys == Below(s.nNew + s.nTried)
    && forall n :: 0 <= n < s.nNew + s.nTried ==>
         OldId(s, n) in s.mapInfo && u.mapInfo[n] == Remembered(s.mapInfo[OldId(s, n)], n)
  }

  lemma AllRestored(h: Hasher, s: State, img: Image, t: State, u: State)
    requires Saves(h, s, img) && |img.news| == s.nNew && |img.trieds| == s.nTried
    requires TriedLoaded(img, t, |img.trieds|) && RefsRestored(s, t, u, |s.vvNew|)
    ensures EntriesRestored(s, u)
  {
    forall n | 0 <= n < s.nNew + s.nTried
      ensures OldId(s, n) in s.mapInfo && u.mapInfo[n] == Remembered(s.mapInfo[OldId(s, n)], n)
    {
      EntryRestored(h, s, img, t, u, n);
    }
  }

  lemma LoadRestoring(h: Hasher, s: State, img: Image, t: State)
    requires Saves(h, s, img) && Sound(img) && t == LoadTried(img, |img.trieds|)
    ensures TriedLoaded(img, t, |img.trieds|) && RestoringAt(s, t, LoadRows(img, |img.rows|), |s.vvNew|)
    ensures t.nNew == s.nNew
  {
    SavedNoCollisions(h, s, img);
    LoadTriedIs(img);
    LoadTriedFirst(img, |img.trieds|);
    RestoreStarts(h, s, img, t);
    RowsRestore(h, s, img, t, |img.rows|);
  }

  lemma LoadRestores(h: Hasher, s: State, img: Image)
    requires Saves(h, s, img) && Sound(img)
    ensures var u := LoadRows(img, |img.rows|);
      && EntriesRestored(s, u) && CellsRestored(s, u, |s.vvNew|)
      && u.nNew == s.nNew && u.nTried == s.nTried && u.nIdCount == s.nNew + s.nTried
  {
    var t := LoadTried(img, |img.trieds|);
    LoadRestoring(h, s, img, t);
    AllRestored(h, s, img, t, LoadRows(img, |img.rows|));
  }

  /** Nothing is pruned. */
  lemma NothingPruned(h: Hasher, s: State, u: State, n: nat)
    requires Inv(h, s) && Numbered(s) && EntriesRestored(s, u)
    ensures Prune(u, n) == u
  {
    forall id ensures !Unplaced(u, id) {
      if id in u.mapInfo {
        assert id in Below(s.nNew + s.nTried);
        OldIdIs(h, s, id);
        assert RefOk(s.mapInfo, s.vvNew, {}, OldId(s, id));
      }
    }
    FoldKeeps(PruneAt, (v, _) => v == u, u, n);
  }

  lemma RebuildRestores(h: Hasher, s: State, img: Image)
    requires Saves(h, s, img) && Sound(img)
    ensures var u := Rebuild(img);
      && EntriesRestored(s, u) && CellsRestored(s, u, |s.vvNew|)
      && u.nNew == s.nNew && u.nTried == s.nTried && u.nIdCount == s.nNew + s.nTried
  {
    LoadRestores(h, s, img);
    NothingPruned(h, s, LoadRows(img, |img.rows|), s.nNew + s.nTried);
  }

  /** The tried table follows from the entries. */
  lemma TriedRestores(h: Hasher, s: State, u: State, i: nat)
    requires Inv(h, s) && Numbered(s) && EntriesRestored(s, u) && Inv(h, u) && i < TRIED_CELLS
    ensures u.vvTried[i] == RenumberCell(s, s.vvTried[i])
  {
    if s.vvTried[i] != EMPTY {
      var id := s.vvTried[i];
      RenumberIs(h, s, id);
      assert u.mapInfo[Renumber(s, id)] == Remembered(s.mapInfo[id], Renumber(s, id));
      assert Renumber(s, id) in Below(s.nNew + s.nTried);
    }
  }

  ghost predicate SameUpToNumbers(s: State, u: State)
    requires Numbered(s)
  {
    && u.nNew == s.nNew && u.nTried == s.nTried && |u.mapInfo| == |s.mapInfo|
    && (forall id :: id in s.mapInfo && id >= 0 ==>
         Renumber(s, id) in u.mapInfo && u.mapInfo[Renumber(s, id)] == Remembered(s.mapInfo[id], Renumber(s, id)))
    && |u.vvNew| == |s.vvNew| && (forall i :: 0 <= i < |s.vvNew| ==> u.vvNew[i] == RenumberCell(s, s.vvNew[i]))
    && |u.vvTried| == |s.vvTried| &&
      (forall i :: 0 <= i < |s.vvTried| ==> u.vvTried[i] == RenumberCell(s, s.vvTried[i]))
  }

  lemma NumbersKept(h: Hasher, s: State, u: State, id: int)
    requires Inv(h, s) && Numbered(s) && EntriesRestored(s, u) && id in s.mapInfo
    ensures Renumber(s, id) in u.mapInfo && u.mapInfo[Renumber(s, id)] == Remembered(s.mapInfo[id], Renumber(s, id))
  {
    RenumberIs(h, s, id);
    assert Renumber(s, id) in Below(s.nNew + s.nTried);
  }

  lemma RestoredSame(h: Hasher, s: State, u: State)
    requires Inv(h, s) && Numbered(s) && Inv(h, u) && EntriesRestored(s, u) && CellsRestored(s, u, |s.vvNew|)
    requires u.nNew == s.nNew && u.nTried == s.nTried
    ensures SameUpToNumbers(s, u)
  {
    forall id | id in s.mapInfo
      ensures Renumber(s, id) in u.mapInfo && u.mapInfo[Renumber(s, id)] == Remembered(s.mapInfo[id], Renumber(s, id))
    {
      NumbersKept(h, s, u, id);
    }
    forall i | 0 <= i < TRIED_CELLS ensures u.vvTried[i] == RenumberCell(s, s.vvTried[i]) { TriedRestores(h, s, u, i); }
    EntryCount(h, s);
    EntryCount(h, u);
  }

  lemma EntryCount(h: Hasher, s: State)
    requires Inv(h, s)
    ensures |s.mapInfo| == s.nNew + s.nTried
  {
    assert s.mapInfo.Keys == NewIds(s.mapInfo) + TriedIds(s.mapInfo);
    assert NewIds(s.mapInfo) !! TriedIds(s.mapInfo);
    assert |s.mapInfo| == |s.mapInfo.Keys|;
  }

  /** Writing any consistent tables and reading the stream back loses no entry:
      both tables, the reference counts and the counters are as before once
      every id is replaced by its new number, and the tables agree again. */
  lemma RoundTrip(h: Hasher, s: State)
    requires Inv(h, s)
    ensures var img := Save(h, s);
      && Parse(Items(img)) == Success(img) && Framed(img)
      && Inv(h, Rebuild(img)) && Numbered(s) && SameUpToNumbers(s, Rebuild(img))
  {
    var img := Save(h, s);
    SavesIs(h, s);
    SavedSound(h, s, img);
    ParseItems(img);
    RebuildInv(img);
    RebuildRestores(h, s, img);
    RestoredSame(h, s, Rebuild(img));
  }
}
