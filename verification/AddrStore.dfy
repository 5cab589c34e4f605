/**
  Writing the address manager to disk and reading it back
  (src/addrman.h, Serialize and Unserialize).

  The file does not hold ids, the random order, the address index or the tried
  table: reading rebuilds them. A stream is a sequence of typed items; how an
  item becomes bytes is not modelled. Reading is split into `Parse`, which
  follows the counts in the stream, and `Rebuild`, which fills the tables.
*/
module AddrStore {

  import opened AddrTables
  import Ops = AddrMan

  /** What the file keeps of an entry. */
  datatype Record = Record(
    service: Service,
    nServices: set<nat>,
    nTime: int,
    source: NetAddr,
    nLastSuccess: int,
    nAttempts: int)

  datatype Item = Byte(b: int) | Key(key: Hasher) | Number(n: int) | Entry(r: Record)

  /** The content of a stream; nUBuckets is the bucket count after undoing the
      version marker. */
  datatype Image = Image(
    nVersion: int,
    key: Hasher,
    nNew: int,
    nTried: int,
    nUBuckets: int,
    news: seq<Record>,
    trieds: seq<Record>,
    rows: seq<seq<int>>)

  datatype Parsed = Failure | Success(img: Image)

  const VERSION := 1
  const KEY_SIZE := 32
  const MARKER := 0x4000_0000

  function Saved(info: Info): Record {
    Record(info.service, info.nServices, info.nTime, info.source, info.nLastSuccess, info.nAttempts)
  }

  function Restored(r: Record, nRandomPos: int): Info {
    Info(r.service, r.nServices, r.nTime, r.source, 0, 0, r.nLastSuccess, r.nAttempts, 0, false, nRandomPos)
  }

  /** Flipping bit 30 of a two's complement number. */
  function Marked(n: int): int {
    if n / MARKER % 2 == 0 then n + MARKER else n - MARKER
  }

  function AtLeastZero(n: int): nat { if n < 0 then 0 else n }

  // ----- The stream -----

  function Entries(rs: seq<Record>): seq<Item> {
    seq(|rs|, i requires 0 <= i < |rs| => Entry(rs[i]))
  }

  function Numbers(row: seq<int>): seq<Item> {
    seq(|row|, i requires 0 <= i < |row| => Number(row[i]))
  }

  function RowItems(rows: seq<seq<int>>, k: nat): seq<Item>
    requires k <= |rows|
  {
    if k == 0 then [] else RowItems(rows, k - 1) + [Number(|rows[k - 1]|)] + Numbers(rows[k - 1])
  }

  function Header(img: Image): seq<Item> {
    [Byte(img.nVersion), Byte(KEY_SIZE), Key(img.key), Number(img.nNew), Number(img.nTried),
     Number(if img.nVersion != 0 then Marked(img.nUBuckets) else img.nUBuckets)]
  }

  function Items(img: Image): seq<Item> {
    Header(img) + Entries(img.news) + Entries(img.trieds) + RowItems(img.rows, |img.rows|)
  }

  // ----- What is written -----

  predicate Listed(m: InfoMap, id: int, tried: bool) {
    id in m && if tried then m[id].fInTried else m[id].nRefCount != 0
  }

  /** The ids below n of one table, in increasing order. */
  function Ids(m: InfoMap, n: nat, tried: bool): seq<int> {
    if n == 0 then []
    else if Listed(m, n - 1, tried) then Ids(m, n - 1, tried) + [n - 1]
    else Ids(m, n - 1, tried)
  }

  /** The number an id gets in the file. */
  function Rank(m: InfoMap, id: int): nat {
    if id < 0 then 0 else |Ids(m, id, false)|
  }

  predicate AllIn(m: InfoMap, ids: seq<int>) {
    forall i :: 0 <= i < |ids| ==> ids[i] in m
  }

  function SavedAll(m: InfoMap, ids: seq<int>): seq<Record>
    requires AllIn(m, ids)
  {
    seq(|ids|, i requires 0 <= i < |ids| => Saved(m[ids[i]]))
  }

  /** The filled cells among k cells from lo on. */
  function RowOf(m: InfoMap, vvNew: seq<int>, lo: nat, k: nat): seq<int>
    requires lo + k <= |vvNew|
  {
    if k == 0 then []
    else if vvNew[lo + k - 1] != EMPTY then RowOf(m, vvNew, lo, k - 1) + [Rank(m, vvNew[lo + k - 1])]
    else RowOf(m, vvNew, lo, k - 1)
  }

  lemma {:induction false} IdsIn(m: InfoMap, n: nat, tried: bool)
    ensures AllIn(m, Ids(m, n, tried))
  {
    if n > 0 { IdsIn(m, n - 1, tried); }
  }

  function SavedTable(m: InfoMap, n: nat, tried: bool): (rs: seq<Record>)
    ensures |rs| == |Ids(m, n, tried)|
  {
    IdsIn(m, n, tried);
    SavedAll(m, Ids(m, n, tried))
  }

  function SavedRows(m: InfoMap, vvNew: seq<int>): seq<seq<int>>
    requires |vvNew| == NEW_BUCKET_COUNT * BUCKET_SIZE
  {
    seq(NEW_BUCKET_COUNT, b requires 0 <= b < NEW_BUCKET_COUNT => RowOf(m, vvNew, b * BUCKET_SIZE, BUCKET_SIZE))
  }

  function Save(h: Hasher, s: State): Image
    requires s.nIdCount >= 0 && |s.vvNew| == NEW_BUCKET_COUNT * BUCKET_SIZE
  {
    Image(VERSION, h, s.nNew, s.nTried, NEW_BUCKET_COUNT,
          SavedTable(s.mapInfo, s.nIdCount, false), SavedTable(s.mapInfo, s.nIdCount, true),
          SavedRows(s.mapInfo, s.vvNew))
  }

  // ----- What is read -----

  predicate EntriesAt(stream: seq<Item>, pos: nat, n: nat) {
    pos + n <= |stream| && forall i :: pos <= i < pos + n ==> stream[i].Entry?
  }

  function EntriesFrom(stream: seq<Item>, pos: nat, n: nat): seq<Record>
    requires EntriesAt(stream, pos, n)
  {
    seq(n, i requires 0 <= i < n => stream[pos + i].r)
  }

  predicate NumbersAt(stream: seq<Item>, pos: nat, n: nat) {
    pos + n <= |stream| && forall i :: pos <= i < pos + n ==> stream[i].Number?
  }

  function NumbersFrom(stream: seq<Item>, pos: nat, n: nat): seq<int>
    requires NumbersAt(stream, pos, n)
  {
    seq(n, i requires 0 <= i < n => stream[pos + i].n)
  }

  datatype Rows = Short | Rows(rows: seq<seq<int>>, end: nat)

  predicate RowAt(stream: seq<Item>, pos: nat) {
    pos < |stream| && stream[pos].Number? && NumbersAt(stream, pos + 1, AtLeastZero(stream[pos].n))
  }

  /** Reading k rows, each a size and that many numbers. */
  function ReadRows(stream: seq<Item>, pos: nat, k: nat): (r: Rows)
    ensures r.Rows? ==> |r.rows| == k
  {
    if k == 0 then Rows([], pos)
    else
      match ReadRows(stream, pos, k - 1)
      case Short => Short
      case Rows(rows, end) =>
        if RowAt(stream, end) then
          var size := AtLeastZero(stream[end].n);
          Rows(rows + [NumbersFrom(stream, end + 1, size)], end + 1 + size)
        else Short
  }

  /** A stream that ends early, a key size other than 32 or a count above the
      size of its table is a failure. */
  predicate HeaderOk(stream: seq<Item>) {
    && |stream| >= 6
    && stream[0].Byte? && stream[1].Byte? && stream[1].b == KEY_SIZE && stream[2].Key?
    && stream[3].Number? && stream[4].Number? && stream[5].Number?
    && stream[3].n <= NEW_BUCKET_COUNT * BUCKET_SIZE
    && stream[4].n <= TRIED_BUCKET_COUNT * BUCKET_SIZE
  }

  function BucketsOf(stream: seq<Item>): int
    requires HeaderOk(stream)
  {
    if stream[0].b != 0 then Marked(stream[5].n) else stream[5].n
  }

  function AfterNew(stream: seq<Item>): nat
    requires HeaderOk(stream)
  {
    6 + AtLeastZero(stream[3].n)
  }

  function AfterTried(stream: seq<Item>): nat
    requires HeaderOk(stream)
  {
    AfterNew(stream) + AtLeastZero(stream[4].n)
  }

  function Parse(stream: seq<Item>): Parsed {
    if !HeaderOk(stream) then Failure
    else if !EntriesAt(stream, 6, AtLeastZero(stream[3].n)) then Failure
    else if !EntriesAt(stream, AfterNew(stream), AtLeastZero(stream[4].n)) then Failure
    else
      match ReadRows(stream, AfterTried(stream), AtLeastZero(BucketsOf(stream)))
      case Short => Failure
      case Rows(rows, _) =>
        Success(Image(stream[0].b, stream[2].key, stream[3].n, stream[4].n, BucketsOf(stream),
                      EntriesFrom(stream, 6, AtLeastZero(stream[3].n)),
                      EntriesFrom(stream, AfterNew(stream), AtLeastZero(stream[4].n)), rows))
  }

  /** The counts agree with what they count. */
  predicate Framed(img: Image) {
    && |img.news| == AtLeastZero(img.nNew)
    && |img.trieds| == AtLeastZero(img.nTried)
    && |img.rows| == AtLeastZero(img.nUBuckets)
  }

  /** The tables have room for the counts. */
  predicate Bounded(img: Image) {
    img.nNew <= NEW_BUCKET_COUNT * BUCKET_SIZE && img.nTried <= TRIED_BUCKET_COUNT * BUCKET_SIZE
  }

  lemma MarkedTwice(n: int)
    ensures Marked(Marked(n)) == n
  {
  }

  /** Where row k starts among the items of the rows. */
  function RowStart(rows: seq<seq<int>>, k: nat): nat
    requires k <= |rows|
  {
    if k == 0 then 0 else RowStart(rows, k - 1) + 1 + |rows[k - 1]|
  }

  predicate RowIs(stream: seq<Item>, pos: nat, row: seq<int>) {
    && pos + |row| < |stream| && stream[pos] == Number(|row|)
    && forall i :: pos < i <= pos + |row| ==> stream[i] == Number(row[i - pos - 1])
  }

  lemma RowReadsBack(stream: seq<Item>, pos: nat, row: seq<int>)
    requires RowIs(stream, pos, row)
    ensures RowAt(stream, pos) && NumbersFrom(stream, pos + 1, |row|) == row
  {
  }

  lemma RowIsWithin(front: seq<Item>, items: seq<Item>, back: seq<Item>, pos: nat, row: seq<int>)
    requires RowIs(items, pos, row)
    ensures RowIs(front + items + back, pos + |front|, row)
  {
  }

  lemma {:induction false} RowItemsSize(rows: seq<seq<int>>, k: nat)
    requires k <= |rows|
    ensures |RowItems(rows, k)| == RowStart(rows, k)
  {
    if k > 0 { RowItemsSize(rows, k - 1); }
  }

  lemma {:induction false} RowItemsHold(rows: seq<seq<int>>, k: nat, j: nat)
    requires j < k <= |rows|
    ensures RowIs(RowItems(rows, k), RowStart(rows, j), rows[j])
  {
    var before, row := RowItems(rows, k - 1), rows[k - 1];
    var after := before + [Number(|row|)] + Numbers(row);
    RowItemsSize(rows, k - 1);
    if j == k - 1 {
      assert RowIs(after, |before|, row);
    } else {
      RowItemsHold(rows, k - 1, j);
      RowIsWithin([], before, [Number(|row|)] + Numbers(row), RowStart(rows, j), rows[j]);
      assert after == [] + before + ([Number(|row|)] + Numbers(row));
    }
  }

  predicate RowHeld(stream: seq<Item>, pos: nat, rows: seq<seq<int>>, j: nat)
    requires j < |rows|
  {
    RowIs(stream, RowStart(rows, j) + pos, rows[j])
  }

  lemma RowsHeld(front: seq<Item>, rows: seq<seq<int>>, items: seq<Item>, j: nat)
    requires j < |rows| && items == RowItems(rows, |rows|)
    ensures RowHeld(front + items, |front|, rows, j)
  {
    RowItemsHold(rows, |rows|, j);
    RowIsWithin(front, items, [], RowStart(rows, j), rows[j]);
    assert front + items + [] == front + items;
  }

  lemma ReadOneMore(stream: seq<Item>, pos: nat, k: nat, rows: seq<seq<int>>, end: nat, row: seq<int>)
    requires ReadRows(stream, pos, k) == Rows(rows, end) && RowIs(stream, end, row)
    ensures ReadRows(stream, pos, k + 1) == Rows(rows + [row], end + 1 + |row|)
  {
    RowReadsBack(stream, end, row);
  }

  lemma {:induction false} RowsReadBack(stream: seq<Item>, pos: nat, rows: seq<seq<int>>, k: nat)
    requires k <= |rows| && forall j :: 0 <= j < k ==> RowHeld(stream, pos, rows, j)
    ensures ReadRows(stream, pos, k) == Rows(rows[..k], RowStart(rows, k) + pos)
  {
    if k > 0 {
      RowsReadBack(stream, pos, rows, k - 1);
      assert RowHeld(stream, pos, rows, k - 1);
      ReadOneMore(stream, pos, k - 1, rows[..k - 1], RowStart(rows, k - 1) + pos, rows[k - 1]);
      assert rows[..k] == rows[..k - 1] + [rows[k - 1]];
    }
  }

  lemma EntriesReadBack(stream: seq<Item>, front: seq<Item>, rs: seq<Record>)
    requires front + Entries(rs) <= stream
    ensures EntriesAt(stream, |front|, |rs|) && EntriesFrom(stream, |front|, |rs|) == rs
  {
    var text := front + Entries(rs);
    forall i | 0 <= i < |rs| ensures stream[|front| + i] == Entry(rs[i]) {
      assert text[|front| + i] == Entry(rs[i]);
    }
    forall i | |front| <= i < |front| + |rs| ensures stream[i].Entry? {
      assert stream[|front| + (i - |front|)] == Entry(rs[i - |front|]);
    }
  }

  lemma HeaderReadsBack(img: Image, stream: seq<Item>)
    requires Header(img) <= stream && Bounded(img)
    ensures HeaderOk(stream) && stream[0].b == img.nVersion && stream[2].key == img.key
    ensures stream[3].n == img.nNew && stream[4].n == img.nTried
    ensures BucketsOf(stream) == img.nUBuckets
  {
    assert forall i :: 0 <= i < 6 ==> stream[i] == Header(img)[i];
    MarkedTwice(img.nUBuckets);
  }

  lemma ItemsReadBack(img: Image, body: seq<Item>)
    requires body == Header(img) + Entries(img.news) + Entries(img.trieds)
    ensures var r := ReadRows(Items(img), |body|, |img.rows|); r.Rows? && r.rows == img.rows
  {
    forall j | 0 <= j < |img.rows| ensures RowHeld(Items(img), |body|, img.rows, j) {
      RowsHeld(body, img.rows, RowItems(img.rows, |img.rows|), j);
    }
    RowsReadBack(Items(img), |body|, img.rows, |img.rows|);
    assert img.rows[..|img.rows|] == img.rows;
  }

  /** What was written is what is read. */
  lemma ParseItems(img: Image)
    requires Framed(img) && Bounded(img) && img.nNew >= 0 && img.nTried >= 0 && img.nUBuckets >= 0
    ensures Parse(Items(img)) == Success(img)
  {
    var stream := Items(img);
    var front, middle := Header(img), Header(img) + Entries(img.news);
    var body := middle + Entries(img.trieds);
    assert body <= stream && middle <= stream && front <= stream;
    HeaderReadsBack(img, stream);
    EntriesReadBack(stream, front, img.news);
    EntriesReadBack(stream, middle, img.trieds);
    ItemsReadBack(img, body);
  }

  // ----- Reading step by step -----

  /** The content of a stream, or of as much of it as there is. */
  ghost function ImageOf(stream: seq<Item>): (img: Image)
    requires HeaderOk(stream)
    ensures img.nVersion == stream[0].b && img.key == stream[2].key && img.nUBuckets == BucketsOf(stream)
    ensures img.nNew == stream[3].n && img.nTried == stream[4].n
    ensures Parse(stream).Success? ==> img == Parse(stream).img && Framed(img)
  {
    if Parse(stream).Success? then Parse(stream).img
    else Image(stream[0].b, stream[2].key, stream[3].n, stream[4].n, BucketsOf(stream), [], [], [])
  }

  lemma {:induction false} ShortStays(stream: seq<Item>, pos: nat, k: nat, n: nat)
    requires k <= n && ReadRows(stream, pos, k).Short?
    ensures ReadRows(stream, pos, n).Short?
  {
    if k < n { ShortStays(stream, pos, k, n - 1); }
  }

  lemma {:induction false} RowsExtend(stream: seq<Item>, pos: nat, k: nat, n: nat)
    requires k < n && ReadRows(stream, pos, n).Rows?
    ensures ReadRows(stream, pos, k).Rows? && RowAt(stream, ReadRows(stream, pos, k).end)
    ensures var end := ReadRows(stream, pos, k).end;
      ReadRows(stream, pos, n).rows[k] == NumbersFrom(stream, end + 1, AtLeastZero(stream[end].n))
  {
    if k < n - 1 { RowsExtend(stream, pos, k, n - 1); }
  }
}
