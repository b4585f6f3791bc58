/**
 * Keyset pagination of the performer catalogue (api/internal/adult/catalog.go).
 *
 * A page is cut from the rows after a cursor, in (name, id) order. One row more than the page is
 * read to learn whether a cursor for the next page is due.
 */
module KeysetPaging {
  import opened Prelude

  datatype Key = Key(name: string, id: nat)

  datatype Row = Row(key: Key, disambiguation: Option<string>, urls: seq<string>, favorite: bool, refCount: nat)

  datatype Performer = Performer(key: Key, disambiguation: string, urls: seq<string>, favorite: bool, refCount: nat)

  datatype Page = Page(items: seq<Performer>, next: string)

  datatype Filter = Filter(favorite: Option<bool>, limit: int, cursor: string)

  datatype Error = BadLimit | BadCursor | QueryFailed

  const NIL_ID: nat := 0
  const DEFAULT_LIMIT: int := 50
  const MAX_LIMIT: int := 200

  /** A performer as listed is the row; one without a disambiguation shows none. */
  ghost predicate Shows(p: Performer, r: Row) {
    && p.key == r.key && p.urls == r.urls && p.favorite == r.favorite && p.refCount == r.refCount
    && r.disambiguation == (if p.disambiguation == "" && r.disambiguation.None? then None else Some(p.disambiguation))
    && (r.disambiguation.None? ==> p.disambiguation == "")
  }

  function ToPerformer(r: Row): (p: Performer)
    ensures Shows(p, r)
  {
    Performer(r.key, if r.disambiguation.Some? then r.disambiguation.value else "", r.urls, r.favorite, r.refCount)
  }

  function ToPerformers(rows: seq<Row>): (items: seq<Performer>)
    ensures |items| == |rows|
    ensures forall i :: 0 <= i < |rows| ==> items[i] == ToPerformer(rows[i])
  {
    seq(|rows|, i requires 0 <= i < |rows| => ToPerformer(rows[i]))
  }

  function ResolveLimit(limit: int): (r: Result<int, Error>)
    ensures r.Ok? <==> 0 <= limit <= 200
    ensures r.Ok? ==> 0 < r.value && (limit > 0 ==> r.value == limit) && (limit == 0 ==> r.value == 50)
    ensures r.Err? ==> r.error == BadLimit
  {
    if limit == 0 then Ok(DEFAULT_LIMIT)
    else if limit < 1 || limit > MAX_LIMIT then Err(BadLimit)
    else Ok(limit)
  }

  // ----- cursors -----

  type Bytes = seq<bv8>

  /** The JSON and base64 codecs, as far as cursors use them. */
  datatype Codec = Codec(
    marshal: Key -> Option<Bytes>,
    unmarshal: Bytes -> Option<Key>,
    toRawUrl: Bytes -> string,
    fromRawUrl: string -> Option<Bytes>,
    fromStd: string -> Option<Bytes>)
  {
    /** What the two formats promise: each reads back what it wrote, and base64url text is never blank inside. */
    ghost predicate Sound() {
      && (forall k :: marshal(k).Some? && marshal(k).value != [] && unmarshal(marshal(k).value) == Some(k))
      && (forall b :: b != [] ==> toRawUrl(b) != "")
      && (forall b :: fromRawUrl(toRawUrl(b)) == Some(b))
      && (forall b, i :: 0 <= i < |toRawUrl(b)| ==> !IsSpace(toRawUrl(b)[i]))
    }
  }

  predicate IsSpace(c: char) {
    || c in {' ', '\t', '\n', '\r', 0x0B as char, 0x0C as char, 0x85 as char, 0xA0 as char}
    || c in {0x1680 as char, 0x2028 as char, 0x2029 as char, 0x202F as char, 0x205F as char, 0x3000 as char}
    || 0x2000 as char <= c <= 0x200A as char
  }

  function TrimLeft(s: string): string {
    if s != "" && IsSpace(s[0]) then TrimLeft(s[1..]) else s
  }

  function TrimRight(s: string): string {
    if s != "" && IsSpace(s[|s| - 1]) then TrimRight(s[..|s| - 1]) else s
  }

  function EncodeCursor(codec: Codec, key: Key): string {
    var b := codec.marshal(key);
    if b.None? then "" else codec.toRawUrl(b.value)
  }

  function DecodeCursor(codec: Codec, raw: string): Result<Key, Error> {
    var trimmed := TrimRight(TrimLeft(raw));
    if trimmed == "" then Ok(Key("", NIL_ID))
    else
      var data := if codec.fromRawUrl(trimmed).Some? then codec.fromRawUrl(trimmed) else codec.fromStd(trimmed);
      if data.None? then Err(BadCursor)
      else
        var c := codec.unmarshal(data.value);
        if c.None? || c.value.id == NIL_ID then Err(BadCursor) else Ok(c.value)
  }

  /** A written cursor is never empty, and reads back as the key it was made from unless the id is nil. */
  lemma CursorRoundTrip(codec: Codec, key: Key)
    requires codec.Sound()
    ensures EncodeCursor(codec, key) != ""
    ensures DecodeCursor(codec, EncodeCursor(codec, key)) == if key.id == NIL_ID then Err(BadCursor) else Ok(key)
  {
    var b := codec.marshal(key).value;
    var raw := codec.toRawUrl(b);
    assert !IsSpace(raw[0]) && !IsSpace(raw[|raw| - 1]);
    assert TrimRight(TrimLeft(raw)) == raw;
  }

  ghost predicate IsBlank(s: string) {
    forall i :: 0 <= i < |s| ==> IsSpace(s[i])
  }

  lemma {:induction false} TrimLeftSkips(blank: string, s: string)
    requires IsBlank(blank)
    ensures TrimLeft(blank + s) == TrimLeft(s)
    decreases |blank|
  {
    if blank == "" {
      assert blank + s == s;
    } else {
      assert (blank + s)[1..] == blank[1..] + s && (blank + s)[0] == blank[0];
      TrimLeftSkips(blank[1..], s);
    }
  }

  lemma {:induction false} TrimRightSkips(s: string, blank: string)
    requires IsBlank(blank)
    ensures TrimRight(s + blank) == TrimRight(s)
    decreases |blank|
  {
    if blank == "" {
      assert s + blank == s;
    } else {
      var all := s + blank;
      assert all[..|all| - 1] == s + blank[..|blank| - 1] && all[|all| - 1] == blank[|blank| - 1];
      TrimRightSkips(s, blank[..|blank| - 1]);
    }
  }

  /** White space around a cursor does not matter. */
  lemma PaddedCursorReads(codec: Codec, before: string, key: Key, after: string)
    requires codec.Sound() && IsBlank(before) && IsBlank(after) && key.id != NIL_ID
    ensures DecodeCursor(codec, before + (EncodeCursor(codec, key) + after)) == Ok(key)
  {
    var raw := EncodeCursor(codec, key);
    CursorRoundTrip(codec, key);
    TrimLeftSkips(before, raw + after);
    assert (raw + after)[0] == raw[0] && !IsSpace(raw[0]);
    TrimRightSkips(raw, after);
    assert !IsSpace(raw[|raw| - 1]);
  }

  /** A cursor that is no base64url text is read as plain base64; a nil id is refused in either. */
  lemma PlainCursorReads(codec: Codec, raw: string, b: Bytes, key: Key)
    requires raw != "" && !IsSpace(raw[0]) && !IsSpace(raw[|raw| - 1])
    requires codec.fromRawUrl(raw).None? && codec.fromStd(raw) == Some(b) && codec.unmarshal(b) == Some(key)
    ensures DecodeCursor(codec, raw) == if key.id == NIL_ID then Err(BadCursor) else Ok(key)
  {
    assert TrimRight(TrimLeft(raw)) == raw;
  }

  // ----- the query -----

  /**
   * A collation ranks the names. Every strict total order on strings is given by such a ranking,
   * and the empty name is the least.
   */
  ghost predicate IsCollation(rank: string -> real) {
    && (forall a, b :: rank(a) == rank(b) ==> a == b)
    && (forall a :: rank("") <= rank(a))
  }

  predicate Below(rank: string -> real, a: Key, b: Key) {
    rank(a.name) < rank(b.name) || (a.name == b.name && a.id < b.id)
  }

  /** Ids are the primary key. */
  ghost predicate IsTable(rows: set<Row>) {
    forall r, q :: r in rows && q in rows && r.key.id == q.key.id ==> r == q
  }

  predicate Selects(rank: string -> real, favorite: Option<bool>, after: Option<Key>, r: Row) {
    && (favorite.None? || r.favorite == favorite.value)
    && (after.None? || Below(rank, after.value, r.key))
  }

  ghost function Selected(rank: string -> real, table: set<Row>, favorite: Option<bool>, after: Option<Key>): set<Row> {
    set r | r in table && Selects(rank, favorite, after, r)
  }

  ghost predicate IsFirst(rank: string -> real, rows: set<Row>, r: Row) {
    r in rows && forall q :: q in rows && q != r ==> Below(rank, r.key, q.key)
  }

  lemma {:induction false} FirstExists(rank: string -> real, rows: set<Row>)
    requires IsCollation(rank) && IsTable(rows) && rows != {}
    ensures exists r :: IsFirst(rank, rows, r)
    decreases |rows|
  {
    var r :| r in rows;
    var rest := rows - {r};
    assert forall q :: q in rows && q != r ==> q in rest;
    if rest == {} {
      assert IsFirst(rank, rows, r);
    } else {
      FirstExists(rank, rest);
      var f :| IsFirst(rank, rest, f);
      assert f != r && f.key.id != r.key.id;
      assert forall q :: q in rows && q != r && q != f ==> Below(rank, f.key, q.key);
      if Below(rank, f.key, r.key) {
        assert IsFirst(rank, rows, f);
      } else {
        assert Below(rank, r.key, f.key);
        forall q | q in rows && q != r ensures Below(rank, r.key, q.key) {
          assert q == f || Below(rank, f.key, q.key);
        }
        assert IsFirst(rank, rows, r);
      }
    }
  }

  ghost predicate Increasing(rank: string -> real, keys: seq<Key>) {
    forall i, j {:trigger Below(rank, keys[i], keys[j])} :: 0 <= i < j < |keys| ==> Below(rank, keys[i], keys[j])
  }

  function KeysOf<T>(s: seq<T>, key: T -> Key): (keys: seq<Key>)
    ensures |keys| == |s| && forall i :: 0 <= i < |s| ==> keys[i] == key(s[i])
  {
    seq(|s|, i requires 0 <= i < |s| => key(s[i]))
  }

  function RowKey(r: Row): Key {
    r.key
  }

  function PerformerKey(p: Performer): Key {
    p.key
  }

  function Keys(rows: seq<Row>): seq<Key> {
    KeysOf(rows, RowKey)
  }

  function PerformerKeys(items: seq<Performer>): seq<Key> {
    KeysOf(items, PerformerKey)
  }

  /** The sequence holds the rows, in key order. */
  ghost predicate Lists(rank: string -> real, s: seq<Row>, rows: set<Row>) {
    && (forall r :: r in rows <==> r in s)
    && Increasing(rank, Keys(s))
  }

  lemma {:induction false} SomeSequenceLists(rank: string -> real, rows: set<Row>)
    requires IsCollation(rank) && IsTable(rows)
    ensures exists s :: Lists(rank, s, rows)
    decreases |rows|
  {
    if rows == {} {
      assert Lists(rank, [], rows);
    } else {
      FirstExists(rank, rows);
      var r :| IsFirst(rank, rows, r);
      assert |rows - {r}| < |rows|;
      SomeSequenceLists(rank, rows - {r});
      var rest :| Lists(rank, rest, rows - {r});
      FirstThenRest(rank, r, rest, rows);
    }
  }

  lemma FirstThenRest(rank: string -> real, r: Row, rest: seq<Row>, rows: set<Row>)
    requires IsFirst(rank, rows, r) && Lists(rank, rest, rows - {r})
    ensures Lists(rank, [r] + rest, rows)
  {
    var s := [r] + rest;
    var keys := Keys(s);
    forall i, j | 0 <= i < j < |keys| ensures Below(rank, keys[i], keys[j]) {
      assert rest[j - 1] in rows - {r};
      if i > 0 {
        assert Below(rank, Keys(rest)[i - 1], Keys(rest)[j - 1]);
      }
    }
    forall q ensures q in rows <==> q in s {
      assert q in s <==> q == r || q in rest;
    }
  }

  /** There is one way only to put rows in key order. */
  lemma {:induction false} OrderIsUnique(rank: string -> real, s: seq<Row>, t: seq<Row>, rows: set<Row>)
    requires Lists(rank, s, rows) && Lists(rank, t, rows)
    ensures s == t
  {
    assert t != [] ==> t[0] in t;
    if s != [] {
      assert s[0] in rows;
      assert s[0] in t && t[0] in rows;
      var i :| 0 <= i < |t| && t[i] == s[0];
      var j :| 0 <= j < |s| && s[j] == t[0];
      assert i > 0 ==> Below(rank, Keys(t)[0], Keys(t)[i]);
      assert j > 0 ==> Below(rank, Keys(s)[0], Keys(s)[j]);
      assert s[0] == t[0];
      TailListsRest(rank, s, rows);
      TailListsRest(rank, t, rows);
      OrderIsUnique(rank, s[1..], t[1..], rows - {s[0]});
    }
  }

  lemma TailListsRest(rank: string -> real, s: seq<Row>, rows: set<Row>)
    requires s != [] && Lists(rank, s, rows)
    ensures Lists(rank, s[1..], rows - {s[0]})
  {
    assert s == [s[0]] + s[1..];
    forall j | 0 <= j < |s[1..]| ensures s[1..][j] != s[0] {
      assert Below(rank, Keys(s)[0], Keys(s)[j + 1]);
    }
    forall i, j | 0 <= i < j < |s[1..]| ensures Below(rank, Keys(s[1..])[i], Keys(s[1..])[j]) {
      assert Below(rank, Keys(s)[i + 1], Keys(s)[j + 1]);
    }
  }

  /** The rows in key order. */
  ghost function Ordered(rank: string -> real, rows: set<Row>): (s: seq<Row>)
    requires IsCollation(rank) && IsTable(rows)
    ensures Lists(rank, s, rows)
  {
    SomeSequenceLists(rank, rows);
    var s :| Lists(rank, s, rows);
    s
  }

  ghost function Answer(rank: string -> real, table: set<Row>, favorite: Option<bool>, after: Option<Key>,
                        count: nat): seq<Row>
    requires IsCollation(rank) && IsTable(table)
  {
    var all := Ordered(rank, Selected(rank, table, favorite, after));
    all[..Min(count, |all|)]
  }

  // ----- one page -----

  function CutPage(codec: Codec, rows: seq<Row>, limit: nat): Page
    requires limit > 0
  {
    if |rows| > limit then Page(ToPerformers(rows[..limit]), EncodeCursor(codec, rows[limit - 1].key))
    else Page(ToPerformers(rows), "")
  }

  /** The position a cursor stands for: no position for the empty cursor. */
  function After(codec: Codec, cursor: string): Result<Option<Key>, Error> {
    if cursor == "" then Ok(None)
    else
      var c := DecodeCursor(codec, cursor);
      if c.Err? then Err(c.error) else Ok(Some(c.value))
  }

  /** The page a table yields when the query succeeds. */
  ghost function Listing(rank: string -> real, codec: Codec, table: set<Row>, filter: Filter): Result<Page, Error>
    requires IsCollation(rank) && IsTable(table)
  {
    var limit := ResolveLimit(filter.limit);
    var after := After(codec, filter.cursor);
    if limit.Err? then Err(limit.error)
    else if after.Err? then Err(after.error)
    else Ok(CutPage(codec, Answer(rank, table, filter.favorite, after.value, limit.value + 1), limit.value))
  }

  /** The item shows a row of the table that the filter lets through. */
  ghost predicate IsListed(table: set<Row>, filter: Filter, p: Performer) {
    exists r :: r in table && Shows(p, r) && (filter.favorite.None? || r.favorite == filter.favorite.value)
  }

  lemma AnswerIsListed(rank: string -> real, table: set<Row>, filter: Filter, after: Option<Key>, count: nat, n: nat)
    requires IsCollation(rank) && IsTable(table)
    ensures var rows := Answer(rank, table, filter.favorite, after, count);
            n <= |rows| ==> (forall p :: p in ToPerformers(rows[..n]) ==> IsListed(table, filter, p))
  {
    var rows := Answer(rank, table, filter.favorite, after, count);
    var all := Ordered(rank, Selected(rank, table, filter.favorite, after));
    if n <= |rows| {
      forall p | p in ToPerformers(rows[..n]) ensures IsListed(table, filter, p) {
        var i :| 0 <= i < n && ToPerformers(rows[..n])[i] == p;
        assert rows[..n][i] == all[i] && all[i] in all;
        assert Shows(p, all[i]);
      }
    }
  }

  method ListPerformers(
      ghost rank: string -> real, ghost table: set<Row>, codec: Codec,
      query: (Option<bool>, Option<Key>, nat) -> Option<seq<Row>>, filter: Filter)
    returns (result: Result<Page, Error>)
    requires IsCollation(rank) && IsTable(table)
    requires forall f, a, n :: query(f, a, n).Some? ==> query(f, a, n).value == Answer(rank, table, f, a, n)
    ensures result == Err(QueryFailed) || result == Listing(rank, codec, table, filter)
    ensures ResolveLimit(filter.limit).Err? || After(codec, filter.cursor).Err? ==>
        result == Listing(rank, codec, table, filter)
    ensures (forall f, a, n :: query(f, a, n).Some?) ==> result == Listing(rank, codec, table, filter)
    ensures filter.limit < 0 || filter.limit > 200 ==> result == Err(BadLimit)
    ensures result.Ok? ==> |result.value.items| <= if filter.limit == 0 then 50 else filter.limit
    ensures result.Ok? ==> forall p :: p in result.value.items ==> IsListed(table, filter, p)
  {
    var resolved := ResolveLimit(filter.limit);
    if resolved.Err? {
      return Err(resolved.error);
    }
    var limit := resolved.value;
    var after: Option<Key> := None;
    if filter.cursor != "" {
      var decoded := DecodeCursor(codec, filter.cursor);
      if decoded.Err? {
        return Err(decoded.error);
      }
      after := Some(decoded.value);
    }
    var answer := query(filter.favorite, after, limit + 1);
    if answer.None? {
      return Err(QueryFailed);
    }
    AnswerIsListed(rank, table, filter, after, limit + 1, Min(limit, |answer.value|));
    var page := CutRows(codec, answer.value, limit);
    return Ok(page);
  }

  /** The page of the rows read: the last of one row too many only tells that a cursor is due. */
  method CutRows(codec: Codec, read: seq<Row>, limit: nat) returns (page: Page)
    requires limit > 0
    ensures page == CutPage(codec, read, limit)
  {
    var rows := read;
    var hasMore := |rows| > limit;
    if hasMore {
      rows := rows[..limit];
    }
    var items := [];
    for i := 0 to |rows|
      invariant items == ToPerformers(rows[..i])
    {
      items := items + [ToPerformer(rows[i])];
    }
    assert rows[..|rows|] == rows;
    var next := "";
    if hasMore && |items| > 0 {
      var last := items[|items| - 1];
      next := EncodeCursor(codec, last.key);
    }
    return Page(items, next);
  }

  // ----- following the cursors -----

  /** A listing with its cursor's position and the rows its page was cut from. */
  lemma ListingIsCut(rank: string -> real, codec: Codec, table: set<Row>, filter: Filter, after: Option<Key>,
                     limit: nat) returns (all: seq<Row>)
    requires IsCollation(rank) && IsTable(table) && codec.Sound()
    requires After(codec, filter.cursor) == Ok(after) && ResolveLimit(filter.limit) == Ok(limit)
    ensures limit > 0
    ensures all == Ordered(rank, Selected(rank, table, filter.favorite, after))
    ensures Listing(rank, codec, table, filter).Ok?
    ensures var page := Listing(rank, codec, table, filter).value;
            && page.items == ToPerformers(all[..Min(limit, |all|)])
            && (page.next != "" <==> limit < |all|)
            && (page.next != "" ==> page.next == EncodeCursor(codec, all[limit - 1].key))
  {
    all := Ordered(rank, Selected(rank, table, filter.favorite, after));
    var rows := Answer(rank, table, filter.favorite, after, limit + 1);
    if |all| > limit {
      assert rows[..limit] == all[..limit];
      CursorRoundTrip(codec, all[limit - 1].key);
    } else {
      assert rows == all;
    }
  }

  ghost predicate HasId(table: set<Row>) {
    forall r :: r in table ==> r.key.id != NIL_ID
  }

  ghost predicate AreTables(tables: seq<set<Row>>) {
    forall i :: 0 <= i < |tables| ==> IsTable(tables[i]) && HasId(tables[i])
  }

  /** Pages fetched one after the other from the tables met, each with the cursor of the one before. */
  ghost predicate IsRun(rank: string -> real, codec: Codec, tables: seq<set<Row>>, filter: Filter, pages: seq<Page>)
    requires IsCollation(rank) && AreTables(tables)
  {
    && |tables| == |pages|
    && forall i :: 0 <= i < |pages| ==> Follows(rank, codec, tables[i], filter, pages, i)
  }

  /** Page i is listed with the cursor before it. */
  ghost predicate Follows(rank: string -> real, codec: Codec, table: set<Row>, filter: Filter, pages: seq<Page>, i: nat)
    requires IsCollation(rank) && IsTable(table) && i < |pages|
  {
    && (i > 0 ==> pages[i - 1].next != "")
    && Listing(rank, codec, table, filter.(cursor := CursorAt(pages, i))) == Ok(pages[i])
  }

  function CursorAt(pages: seq<Page>, i: nat): string
    requires i <= |pages|
  {
    if i == 0 then "" else pages[i - 1].next
  }

  function Items(pages: seq<Page>): seq<Performer> {
    if pages == [] then [] else Items(pages[..|pages| - 1]) + pages[|pages| - 1].items
  }

  /** Where a run stands: its next position, above every item so far, and all rows that stayed are in or still ahead. */
  ghost predicate Stands(rank: string -> real, codec: Codec, tables: seq<set<Row>>, filter: Filter, pages: seq<Page>,
                         after: Option<Key>) {
    var items := Items(pages);
    && After(codec, CursorAt(pages, |pages|)) == Ok(after)
    && Increasing(rank, PerformerKeys(items))
    && (after.None? ==> items == [])
    && (after.Some? ==> items != [] && items[|items| - 1].key == after.value)
    && (forall r :: Stayed(tables, filter, r) && !Selects(rank, filter.favorite, after, r) ==> ToPerformer(r) in items)
  }

  ghost predicate Stayed(tables: seq<set<Row>>, filter: Filter, r: Row) {
    && (filter.favorite.None? || r.favorite == filter.favorite.value)
    && forall i :: 0 <= i < |tables| ==> r in tables[i]
  }

  lemma AppendedStaysIncreasing(rank: string -> real, keys: seq<Key>, more: seq<Key>)
    requires Increasing(rank, keys) && Increasing(rank, more)
    requires keys != [] ==> forall j :: 0 <= j < |more| ==> Below(rank, keys[|keys| - 1], more[j])
    ensures Increasing(rank, keys + more)
  {
    forall i, j | 0 <= i < j < |keys + more| ensures Below(rank, (keys + more)[i], (keys + more)[j]) {
      if i < |keys| <= j {
        assert Below(rank, keys[|keys| - 1], more[j - |keys|]);
        assert i < |keys| - 1 ==> Below(rank, keys[i], keys[|keys| - 1]);
      }
    }
  }

  lemma PrefixStaysIncreasing(rank: string -> real, rows: seq<Row>, items: seq<Performer>)
    requires Increasing(rank, Keys(rows)) && |items| <= |rows| && items == ToPerformers(rows[..|items|])
    ensures Increasing(rank, PerformerKeys(items))
  {
    forall i, j | 0 <= i < j < |items| ensures Below(rank, PerformerKeys(items)[i], PerformerKeys(items)[j]) {
      assert Below(rank, Keys(rows)[i], Keys(rows)[j]);
    }
  }

  /** The row lies behind one position and not behind the next. */
  predicate IsPassed(rank: string -> real, filter: Filter, after: Option<Key>, next: Option<Key>, r: Row) {
    Selects(rank, filter.favorite, after, r) && !Selects(rank, filter.favorite, next, r)
  }

  /** The items of a page lie above its cursor, in order. */
  lemma PageIsAbove(rank: string -> real, codec: Codec, table: set<Row>, filter: Filter, after: Option<Key>,
                    page: Page, limit: nat, all: seq<Row>)
    requires Lists(rank, all, Selected(rank, table, filter.favorite, after))
    requires page.items == ToPerformers(all[..Min(limit, |all|)])
    ensures Increasing(rank, PerformerKeys(page.items))
    ensures forall j :: 0 <= j < |page.items| && after.Some? ==> Below(rank, after.value, page.items[j].key)
  {
    PrefixStaysIncreasing(rank, all, page.items);
    forall j | 0 <= j < |page.items| && after.Some? ensures Below(rank, after.value, page.items[j].key) {
      assert all[j] in all;
    }
  }

  /** One more page: its items come after those before it, and it leaves out no row it passes. */
  lemma PageAdvances(rank: string -> real, codec: Codec, table: set<Row>, filter: Filter, after: Option<Key>,
                     page: Page) returns (next: Option<Key>)
    requires IsCollation(rank) && IsTable(table) && HasId(table) && codec.Sound()
    requires After(codec, filter.cursor) == Ok(after) && Listing(rank, codec, table, filter) == Ok(page)
    ensures Increasing(rank, PerformerKeys(page.items))
    ensures forall j :: 0 <= j < |page.items| && after.Some? ==> Below(rank, after.value, page.items[j].key)
    ensures page.next == "" ==>
              forall r :: r in table && Selects(rank, filter.favorite, after, r) ==> ToPerformer(r) in page.items
    ensures page.next != "" ==>
              (&& After(codec, page.next) == Ok(next) && next.Some?
               && page.items != [] && page.items[|page.items| - 1].key == next.value
               && forall r :: r in table && IsPassed(rank, filter, after, next, r) ==> ToPerformer(r) in page.items)
  {
    var limit := ResolveLimit(filter.limit).value;
    var all := ListingIsCut(rank, codec, table, filter, after, limit);
    PageIsAbove(rank, codec, table, filter, after, page, limit, all);
    next := None;
    if page.next != "" {
      next := Some(all[limit - 1].key);
      assert all[limit - 1] in all;
      CursorRoundTrip(codec, all[limit - 1].key);
    }
    forall r | r in table && Selects(rank, filter.favorite, after, r)
               && (page.next == "" || !Selects(rank, filter.favorite, next, r))
      ensures ToPerformer(r) in page.items
    {
      CutHolds(rank, filter, all, limit, page, r);
    }
  }

  /** A listed row is on the page unless it comes behind the last row of a page with a cursor. */
  lemma CutHolds(rank: string -> real, filter: Filter, all: seq<Row>, limit: nat, page: Page, r: Row)
    requires Increasing(rank, Keys(all)) && r in all && 0 < limit
    requires page.items == ToPerformers(all[..Min(limit, |all|)])
    requires page.next != "" <==> limit < |all|
    requires page.next == "" || !Below(rank, all[limit - 1].key, r.key)
    ensures ToPerformer(r) in page.items
  {
    var k :| 0 <= k < |all| && all[k] == r;
    assert Keys(all)[k] == r.key;
    assert page.items[k] == ToPerformer(r);
  }

  lemma {:induction false} RunStands(rank: string -> real, codec: Codec, tables: seq<set<Row>>, filter: Filter,
                                     pages: seq<Page>) returns (after: Option<Key>)
    requires IsCollation(rank) && AreTables(tables) && codec.Sound()
    requires IsRun(rank, codec, tables, filter, pages)
    requires pages != [] ==> pages[|pages| - 1].next != ""
    ensures Stands(rank, codec, tables, filter, pages, after)
    decreases |pages|
  {
    if pages == [] {
      after := None;
    } else {
      var n := |pages| - 1;
      var before := RunPrefix(rank, codec, tables, filter, pages);
      var f := filter.(cursor := CursorAt(pages, n));
      assert CursorAt(pages[..n], n) == CursorAt(pages, n);
      after := PageAdvances(rank, codec, tables[n], f, before, pages[n]);
      PageIsAppended(rank, codec, tables, filter, pages, before);
      StandsBehindPage(rank, codec, tables, filter, pages, before, after);
    }
  }

  /** Behind a page with a cursor the run stands at that cursor. */
  lemma StandsBehindPage(rank: string -> real, codec: Codec, tables: seq<set<Row>>, filter: Filter, pages: seq<Page>,
                         before: Option<Key>, after: Option<Key>)
    requires |tables| == |pages| > 0 && Stands(rank, codec, tables[..|pages| - 1], filter, pages[..|pages| - 1], before)
    requires Increasing(rank, PerformerKeys(Items(pages)))
    requires var page := pages[|pages| - 1];
             && page.next != "" && After(codec, page.next) == Ok(after) && after.Some?
             && page.items != [] && page.items[|page.items| - 1].key == after.value
    requires forall r :: r in tables[|pages| - 1] && IsPassed(rank, filter, before, after, r) ==>
                           ToPerformer(r) in pages[|pages| - 1].items
    ensures Stands(rank, codec, tables, filter, pages, after)
  {
    var n := |pages| - 1;
    assert Items(pages) == Items(pages[..n]) + pages[n].items;
    forall r | Stayed(tables, filter, r) && !Selects(rank, filter.favorite, after, r)
      ensures ToPerformer(r) in Items(pages) {
      PassedIsListed(rank, tables, filter, pages, before, r);
    }
  }

  /** A row that stayed was passed before the last page, or lies in the stretch the last page covers. */
  lemma PassedIsListed(rank: string -> real, tables: seq<set<Row>>, filter: Filter, pages: seq<Page>,
                       before: Option<Key>, r: Row)
    requires |tables| == |pages| > 0 && Stayed(tables, filter, r)
    requires forall q :: Stayed(tables[..|pages| - 1], filter, q) && !Selects(rank, filter.favorite, before, q) ==>
        ToPerformer(q) in Items(pages[..|pages| - 1])
    requires r in tables[|pages| - 1] && Selects(rank, filter.favorite, before, r) ==>
        ToPerformer(r) in pages[|pages| - 1].items
    ensures ToPerformer(r) in Items(pages)
  {
    assert r in tables[|pages| - 1];
    assert Stayed(tables[..|pages| - 1], filter, r);
  }

  /** The pages before the last are a run too. */
  lemma {:induction false} RunPrefix(rank: string -> real, codec: Codec, tables: seq<set<Row>>, filter: Filter,
                                     pages: seq<Page>) returns (before: Option<Key>)
    requires IsCollation(rank) && AreTables(tables) && codec.Sound()
    requires IsRun(rank, codec, tables, filter, pages) && pages != []
    ensures AreTables(tables[..|pages| - 1]) && IsRun(rank, codec, tables[..|pages| - 1], filter, pages[..|pages| - 1])
    ensures Stands(rank, codec, tables[..|pages| - 1], filter, pages[..|pages| - 1], before)
    decreases |pages|, 0
  {
    var n := |pages| - 1;
    assert Follows(rank, codec, tables[n], filter, pages, n);
    forall i | 0 <= i < n ensures Follows(rank, codec, tables[..n][i], filter, pages[..n], i) {
      assert CursorAt(pages[..n], i) == CursorAt(pages, i);
      assert Follows(rank, codec, tables[i], filter, pages, i);
    }
    before := RunStands(rank, codec, tables[..n], filter, pages[..n]);
  }

  lemma PageIsAppended(rank: string -> real, codec: Codec, tables: seq<set<Row>>, filter: Filter, pages: seq<Page>,
                       before: Option<Key>)
    requires IsCollation(rank) && AreTables(tables) && codec.Sound()
    requires IsRun(rank, codec, tables, filter, pages) && pages != []
    requires Stands(rank, codec, tables[..|pages| - 1], filter, pages[..|pages| - 1], before)
    ensures Increasing(rank, PerformerKeys(Items(pages)))
  {
    var n := |pages| - 1;
    var listed := Items(pages[..n]);
    assert CursorAt(pages[..n], n) == CursorAt(pages, n);
    var next := PageAdvances(rank, codec, tables[n], filter.(cursor := CursorAt(pages, n)), before, pages[n]);
    AppendedStaysIncreasing(rank, PerformerKeys(listed), PerformerKeys(pages[n].items));
    KeysOfBoth(listed, pages[n].items);
  }

  lemma KeysOfBoth(a: seq<Performer>, b: seq<Performer>)
    ensures PerformerKeys(a + b) == PerformerKeys(a) + PerformerKeys(b)
  {
  }

  /** However the table changes between pages, the keys listed only ever go up: nothing is listed twice. */
  lemma RunGoesUp(rank: string -> real, codec: Codec, tables: seq<set<Row>>, filter: Filter, pages: seq<Page>)
    requires IsCollation(rank) && AreTables(tables) && codec.Sound()
    requires IsRun(rank, codec, tables, filter, pages)
    ensures Increasing(rank, PerformerKeys(Items(pages)))
  {
    if pages != [] {
      var before := RunPrefix(rank, codec, tables, filter, pages);
      PageIsAppended(rank, codec, tables, filter, pages, before);
    }
  }

  /** However the table changes, a finished run lists each row that stayed as it was exactly once. */
  lemma StayingRowIsListedOnce(rank: string -> real, codec: Codec, tables: seq<set<Row>>, filter: Filter,
                               pages: seq<Page>, r: Row)
    requires IsCollation(rank) && AreTables(tables) && codec.Sound()
    requires IsRun(rank, codec, tables, filter, pages)
    requires pages != [] && pages[|pages| - 1].next == ""
    requires Stayed(tables, filter, r)
    ensures exists i :: 0 <= i < |Items(pages)| && Items(pages)[i] == ToPerformer(r)
                        && forall j :: 0 <= j < |Items(pages)| && Items(pages)[j].key == r.key ==> j == i
  {
    var n := |pages| - 1;
    var items := Items(pages);
    var before := RunPrefix(rank, codec, tables, filter, pages);
    assert CursorAt(pages[..n], n) == CursorAt(pages, n);
    var next := PageAdvances(rank, codec, tables[n], filter.(cursor := CursorAt(pages, n)), before, pages[n]);
    RunGoesUp(rank, codec, tables, filter, pages);
    assert r in tables[n] && Stayed(tables[..n], filter, r);
    assert ToPerformer(r) in items;
    var i :| 0 <= i < |items| && items[i] == ToPerformer(r);
    var keys := PerformerKeys(items);
    forall j | 0 <= j < |items| && j != i ensures items[j].key != r.key {
      assert Below(rank, keys[Min(i, j)], keys[Max(i, j)]);
    }
  }

  // ----- a table that does not change -----

  /** All matching rows of a table, in key order. */
  ghost function Whole(rank: string -> real, table: set<Row>, favorite: Option<bool>): seq<Row>
    requires IsCollation(rank) && IsTable(table)
  {
    Ordered(rank, Selected(rank, table, favorite, None))
  }

  lemma SuffixListsRest(rank: string -> real, all: seq<Row>, rows: set<Row>, k: nat, rest: set<Row>)
    requires Lists(rank, all, rows) && 0 < k <= |all|
    requires forall r :: r in rest <==> r in rows && Below(rank, all[k - 1].key, r.key)
    ensures Lists(rank, all[k..], rest)
  {
    var keys, s := Keys(all), all[k..];
    forall i, j | 0 <= i < j < |s| ensures Below(rank, Keys(s)[i], Keys(s)[j]) {
      assert Below(rank, keys[i + k], keys[j + k]);
    }
    forall i | k <= i < |all| ensures all[i] in rest {
      assert all[i] in all;
      assert Below(rank, keys[k - 1], keys[i]);
    }
    forall i | 0 <= i < k ensures all[i] !in rest {
      assert i < k - 1 ==> Below(rank, keys[i], keys[k - 1]);
    }
    forall r | r in rest ensures r in s {
      var i :| 0 <= i < |all| && all[i] == r;
      assert s[i - k] == r;
    }
  }

  /** The rows after the k-th are those after its key. */
  lemma RestIsSuffix(rank: string -> real, table: set<Row>, favorite: Option<bool>, k: nat)
    requires IsCollation(rank) && IsTable(table)
    requires 0 < k <= |Whole(rank, table, favorite)|
    ensures var all := Whole(rank, table, favorite);
            Ordered(rank, Selected(rank, table, favorite, Some(all[k - 1].key))) == all[k..]
  {
    var whole := Selected(rank, table, favorite, None);
    var all := Ordered(rank, whole);
    var rest := Selected(rank, table, favorite, Some(all[k - 1].key));
    SuffixListsRest(rank, all, whole, k, rest);
    OrderIsUnique(rank, Ordered(rank, rest), all[k..], rest);
  }

  /** On a fixed table page k holds the rows from k * limit on, and has a cursor exactly when rows remain. */
  lemma {:induction false} FixedTablePage(rank: string -> real, codec: Codec, table: set<Row>, filter: Filter,
                                          pages: seq<Page>, k: nat, limit: nat)
    requires IsCollation(rank) && IsTable(table) && HasId(table) && codec.Sound()
    requires ResolveLimit(filter.limit) == Ok(limit)
    requires IsRun(rank, codec, Repeat(table, |pages|), filter, pages) && k < |pages|
    ensures IsPage(codec, Whole(rank, table, filter.favorite), Offset(k, limit), limit, pages[k])
  {
    FixedTableFollows(rank, codec, table, filter, pages, k);
    if k == 0 {
      FirstOfRun(rank, codec, table, filter, pages, limit);
    } else {
      FixedTablePage(rank, codec, table, filter, pages, k - 1, limit);
      NextPage(rank, codec, table, filter, pages, k, limit);
    }
  }

  lemma FirstOfRun(rank: string -> real, codec: Codec, table: set<Row>, filter: Filter, pages: seq<Page>, limit: nat)
    requires IsCollation(rank) && IsTable(table) && codec.Sound()
    requires ResolveLimit(filter.limit) == Ok(limit)
    requires |pages| > 0 && Follows(rank, codec, table, filter, pages, 0)
    ensures IsPage(codec, Whole(rank, table, filter.favorite), 0, limit, pages[0])
  {
    FirstPage(rank, codec, table, filter.(cursor := CursorAt(pages, 0)), pages[0], limit);
  }

  /** The page after a page begins where that one ended. */
  lemma NextPage(rank: string -> real, codec: Codec, table: set<Row>, filter: Filter, pages: seq<Page>, k: nat,
                 limit: nat)
    requires IsCollation(rank) && IsTable(table) && HasId(table) && codec.Sound()
    requires ResolveLimit(filter.limit) == Ok(limit)
    requires 0 < k < |pages| && Follows(rank, codec, table, filter, pages, k)
    requires IsPage(codec, Whole(rank, table, filter.favorite), Offset(k - 1, limit), limit, pages[k - 1])
    ensures IsPage(codec, Whole(rank, table, filter.favorite), Offset(k, limit), limit, pages[k])
  {
    PageAfter(rank, codec, table, filter.(cursor := CursorAt(pages, k)), Offset(k, limit), pages[k], limit);
  }

  /** Where page k begins. */
  function Offset(k: nat, limit: nat): nat {
    if k == 0 then 0 else Offset(k - 1, limit) + limit
  }

  lemma {:induction false} OffsetIsMultiple(k: nat, limit: nat)
    ensures Offset(k, limit) == k * limit
  {
    if k > 0 {
      OffsetIsMultiple(k - 1, limit);
    }
  }

  lemma FixedTableFollows(rank: string -> real, codec: Codec, table: set<Row>, filter: Filter, pages: seq<Page>, k: nat)
    requires IsCollation(rank) && IsTable(table) && HasId(table)
    requires IsRun(rank, codec, Repeat(table, |pages|), filter, pages) && k < |pages|
    ensures Follows(rank, codec, table, filter, pages, k)
  {
    assert Follows(rank, codec, Repeat(table, |pages|)[k], filter, pages, k);
  }

  /** The page holds the rows from a position on, and has a cursor exactly when rows remain. */
  ghost predicate IsPage(codec: Codec, all: seq<Row>, from: nat, limit: nat, page: Page) {
    && 0 < limit
    && from <= |all|
    && page.items == ToPerformers(all[from..Min(from + limit, |all|)])
    && (page.next != "" <==> from + limit < |all|)
    && (page.next != "" ==> page.next == EncodeCursor(codec, all[from + limit - 1].key))
  }

  lemma FirstPage(rank: string -> real, codec: Codec, table: set<Row>, filter: Filter, page: Page, limit: nat)
    requires IsCollation(rank) && IsTable(table) && codec.Sound()
    requires ResolveLimit(filter.limit) == Ok(limit) && filter.cursor == ""
    requires Listing(rank, codec, table, filter) == Ok(page)
    ensures IsPage(codec, Whole(rank, table, filter.favorite), 0, limit, page)
  {
    var all := ListingIsCut(rank, codec, table, filter, None, limit);
  }

  lemma PageAfter(rank: string -> real, codec: Codec, table: set<Row>, filter: Filter, start: nat, page: Page,
                  limit: nat)
    requires IsCollation(rank) && IsTable(table) && HasId(table) && codec.Sound()
    requires ResolveLimit(filter.limit) == Ok(limit)
    requires 0 < start <= |Whole(rank, table, filter.favorite)|
    requires filter.cursor == EncodeCursor(codec, Whole(rank, table, filter.favorite)[start - 1].key)
    requires Listing(rank, codec, table, filter) == Ok(page)
    ensures IsPage(codec, Whole(rank, table, filter.favorite), start, limit, page)
  {
    var all := Whole(rank, table, filter.favorite);
    assert all[start - 1] in all;
    CursorRoundTrip(codec, all[start - 1].key);
    RestIsSuffix(rank, table, filter.favorite, start);
    var rest := ListingIsCut(rank, codec, table, filter, Some(all[start - 1].key), limit);
    assert rest == all[start..];
    assert rest[..Min(limit, |rest|)] == all[start..Min(start + limit, |all|)];
  }

  /** The number of pages a fixed table of n matching rows takes: at least one, else n / limit rounded up. */
  function PageCount(n: nat, limit: nat): nat
    requires limit > 0
  {
    if n == 0 then 1 else (n + limit - 1) / limit
  }

  lemma MoreTakesMore(a: int, b: int, limit: nat)
    requires a <= b
    ensures a * limit <= b * limit
  {
  }

  /** The page count is the only number of pages that reaches the end and would not without its last page. */
  lemma PageCountBounds(n: nat, limit: nat, pages: nat)
    requires limit > 0 && pages > 0
    ensures pages == PageCount(n, limit) <==> n <= pages * limit && (pages == 1 || (pages - 1) * limit < n)
    ensures pages < PageCount(n, limit) <==> pages * limit < n
  {
    if n == 0 {
      MoreTakesMore(0, pages - 1, limit);
      MoreTakesMore(0, pages, limit);
    } else {
      var q := PageCount(n, limit);
      assert n + limit - 1 == q * limit + (n + limit - 1) % limit;
      assert q * limit == (q - 1) * limit + limit;
      if pages < q {
        MoreTakesMore(pages, q - 1, limit);
      } else if pages > q {
        MoreTakesMore(q, pages - 1, limit);
        MoreTakesMore(q, pages, limit);
      }
    }
  }

  /** A run over a fixed table is finished after exactly PageCount pages, and then holds all matching rows in order. */
  lemma FixedTableRun(rank: string -> real, codec: Codec, table: set<Row>, filter: Filter, pages: seq<Page>, limit: nat)
    requires IsCollation(rank) && IsTable(table) && HasId(table) && codec.Sound()
    requires ResolveLimit(filter.limit) == Ok(limit) && limit > 0
    requires IsRun(rank, codec, Repeat(table, |pages|), filter, pages) && pages != []
    ensures var all := Whole(rank, table, filter.favorite);
            && |pages| <= PageCount(|all|, limit)
            && (pages[|pages| - 1].next == "" <==> |pages| == PageCount(|all|, limit))
            && (pages[|pages| - 1].next == "" ==> Items(pages) == ToPerformers(all))
  {
    var n := |pages|;
    FixedTablePage(rank, codec, table, filter, pages, n - 1, limit);
    if n > 1 {
      LaterPageHasRows(rank, codec, table, filter, pages, n - 1, limit);
    }
    LastPage(codec, Whole(rank, table, filter.favorite), pages[n - 1], n, limit);
    AllItems(rank, codec, table, filter, pages, limit);
  }

  lemma LaterPageHasRows(rank: string -> real, codec: Codec, table: set<Row>, filter: Filter, pages: seq<Page>, k: nat,
                         limit: nat)
    requires IsCollation(rank) && IsTable(table) && HasId(table) && codec.Sound()
    requires ResolveLimit(filter.limit) == Ok(limit)
    requires IsRun(rank, codec, Repeat(table, |pages|), filter, pages) && 0 < k < |pages|
    ensures Offset(k, limit) < |Whole(rank, table, filter.favorite)|
  {
    FixedTablePage(rank, codec, table, filter, pages, k - 1, limit);
    FixedTableFollows(rank, codec, table, filter, pages, k);
  }

  lemma AllItems(rank: string -> real, codec: Codec, table: set<Row>, filter: Filter, pages: seq<Page>, limit: nat)
    requires IsCollation(rank) && IsTable(table) && HasId(table) && codec.Sound()
    requires ResolveLimit(filter.limit) == Ok(limit)
    requires IsRun(rank, codec, Repeat(table, |pages|), filter, pages)
    ensures var all := Whole(rank, table, filter.favorite);
            Items(pages) == ToPerformers(all[..Min(Offset(|pages|, limit), |all|)])
  {
    ItemsSoFar(rank, codec, table, filter, pages, |pages|, limit);
    assert pages[..|pages|] == pages;
  }

  lemma LastPage(codec: Codec, all: seq<Row>, page: Page, n: nat, limit: nat)
    requires n > 0 && IsPage(codec, all, Offset(n - 1, limit), limit, page)
    requires n > 1 ==> Offset(n - 1, limit) < |all|
    ensures n <= PageCount(|all|, limit)
    ensures page.next == "" <==> n == PageCount(|all|, limit)
    ensures page.next == "" ==> all[..Min(Offset(n, limit), |all|)] == all
  {
    OffsetIsMultiple(n, limit);
    OffsetIsMultiple(n - 1, limit);
    PageCountBounds(|all|, limit, n);
  }

  lemma {:induction false} ItemsSoFar(rank: string -> real, codec: Codec, table: set<Row>, filter: Filter,
                                      pages: seq<Page>, k: nat, limit: nat)
    requires IsCollation(rank) && IsTable(table) && HasId(table) && codec.Sound()
    requires ResolveLimit(filter.limit) == Ok(limit)
    requires IsRun(rank, codec, Repeat(table, |pages|), filter, pages) && k <= |pages|
    ensures var all := Whole(rank, table, filter.favorite);
            Items(pages[..k]) == ToPerformers(all[..Min(Offset(k, limit), |all|)])
  {
    if k > 0 {
      ItemsSoFar(rank, codec, table, filter, pages, k - 1, limit);
      FixedTablePage(rank, codec, table, filter, pages, k - 1, limit);
      assert pages[..k][..k - 1] == pages[..k - 1];
      PerformersUpTo(Whole(rank, table, filter.favorite), Offset(k - 1, limit), limit);
    }
  }

  lemma PerformersUpTo(all: seq<Row>, from: nat, limit: nat)
    requires from <= |all|
    ensures ToPerformers(all[..Min(from + limit, |all|)])
      == ToPerformers(all[..from]) + ToPerformers(all[from..Min(from + limit, |all|)])
  {
  }

  /** Some run of every length up to the page count exists: no cursor handed out is refused. */
  lemma NextPageIsServed(rank: string -> real, codec: Codec, tables: seq<set<Row>>, filter: Filter, pages: seq<Page>,
                         table: set<Row>)
    requires IsCollation(rank) && AreTables(tables + [table]) && AreTables(tables) && codec.Sound()
    requires IsRun(rank, codec, tables, filter, pages)
    requires pages != [] ==> pages[|pages| - 1].next != ""
    requires ResolveLimit(filter.limit).Ok?
    ensures exists page :: IsRun(rank, codec, tables + [table], filter, pages + [page])
  {
    var n := |pages|;
    var after := RunStands(rank, codec, tables, filter, pages);
    assert IsTable((tables + [table])[n]);
    var f := filter.(cursor := CursorAt(pages, n));
    var all := ListingIsCut(rank, codec, table, f, after, ResolveLimit(filter.limit).value);
    var page := Listing(rank, codec, table, f).value;
    forall i | 0 <= i < n + 1 ensures Follows(rank, codec, (tables + [table])[i], filter, pages + [page], i) {
      assert CursorAt(pages + [page], i) == CursorAt(pages, i);
      if i < n {
        assert Follows(rank, codec, tables[i], filter, pages, i);
      }
    }
    assert IsRun(rank, codec, tables + [table], filter, pages + [page]);
  }

  /** A cursor of blanks only starts from the top again. */
  lemma BlankCursorStartsOver(rank: string -> real, codec: Codec, table: set<Row>, filter: Filter)
    requires IsCollation(rank) && IsTable(table) && HasId(table)
    requires IsBlank(filter.cursor)
    ensures Listing(rank, codec, table, filter) == Listing(rank, codec, table, filter.(cursor := ""))
  {
    TrimLeftSkips(filter.cursor, "");
    assert filter.cursor + "" == filter.cursor;
    if filter.cursor != "" {
      forall r | r in table ensures Below(rank, Key("", NIL_ID), r.key) {
        assert rank(r.key.name) == rank("") ==> r.key.name == "";
      }
      assert Selected(rank, table, filter.favorite, Some(Key("", NIL_ID)))
        == Selected(rank, table, filter.favorite, None);
    }
  }
}
