/**
 * Reading a download queue page by page, and the scores of the files already on disk
 * (api/internal/arrclient/queue.go).
 */
module QueueReader {
  import opened Prelude

  const DEFAULT_PAGES: int := 10
  const DEFAULT_PAGE_SIZE: int := 200
  const MAX_FILE_LOOKUPS: nat := 50

  /** A queue record; the nested movie or episode may be missing. */
  datatype Record = Record(id: int, added: string, sizeLeft: int, size: int, score: int, mediaId: int,
                           media: Option<Media>, texts: Texts, messages: seq<Message>)

  /** The texts of a record that are taken over as they are. */
  datatype Texts = Texts(downloadId: string, status: string, trackedStatus: string, trackedState: string, title: string,
                         protocol: string)

  datatype Message = Message(title: string, lines: seq<string>)

  datatype Media = Media(monitored: bool, fileId: int)

  datatype Item = Item(id: int, added: int, sizeLeft: int, size: int, score: int, mediaId: int, monitored: bool,
                       existingScore: Option<int>, texts: Texts, statusLines: seq<string>, reasonLines: seq<string>)

  /** An item with the file on disk to ask about; zero for none. */
  datatype Mapped = Mapped(item: Item, fileId: int)

  datatype Error = Unreachable(page: int)

  // ----- mapping records -----

  /** A conversion to 32 bits keeps the low bits. */
  function ToInt32(x: int): (r: int)
    ensures -0x8000_0000 <= x < 0x8000_0000 ==> r == x
    ensures -0x8000_0000 <= r < 0x8000_0000 && (x - r) % 0x1_0000_0000 == 0
  {
    var low := x % 0x1_0000_0000;
    if low < 0x8000_0000 then low else low - 0x1_0000_0000
  }

  function NonEmpty(lines: seq<string>): seq<string> {
    if lines == [] then []
    else NonEmpty(lines[..|lines| - 1]) + (if lines[|lines| - 1] == "" then [] else [lines[|lines| - 1]])
  }

  /** Titles and lines of all messages, in order, without empty ones. */
  function StatusLines(messages: seq<Message>): seq<string> {
    if messages == [] then [] else
    var last := messages[|messages| - 1];
    StatusLines(messages[..|messages| - 1]) + NonEmpty([last.title]) + NonEmpty(last.lines)
  }

  /** The lines of all messages; a title stands in for a message that has none. */
  function ReasonLines(messages: seq<Message>): seq<string> {
    if messages == [] then [] else
    var last := messages[|messages| - 1];
    ReasonLines(messages[..|messages| - 1]) + NonEmpty(if last.lines == [] then [last.title] else last.lines)
  }

  method AppendNonEmpty(before: seq<string>, lines: seq<string>) returns (all: seq<string>)
    ensures all == before + NonEmpty(lines)
  {
    all := before;
    for k := 0 to |lines|
      invariant all == before + NonEmpty(lines[..k])
    {
      assert lines[..k + 1][..k] == lines[..k];
      if lines[k] != "" {
        all := all + [lines[k]];
      }
    }
    assert lines[..|lines|] == lines;
  }

  method FlattenMessages(messages: seq<Message>) returns (status: seq<string>, reasons: seq<string>)
    ensures status == StatusLines(messages) && reasons == ReasonLines(messages)
  {
    status, reasons := [], [];
    for k := 0 to |messages|
      invariant status == StatusLines(messages[..k]) && reasons == ReasonLines(messages[..k])
    {
      assert messages[..k + 1][..k] == messages[..k];
      var m := messages[k];
      status := AppendNonEmpty(status, [m.title]);
      status := AppendNonEmpty(status, m.lines);
      reasons := AppendNonEmpty(reasons, if m.lines == [] then [m.title] else m.lines);
    }
    assert messages[..|messages|] == messages;
  }

  /** No status line is empty, and every reason is one of them. */
  lemma {:induction false} ReasonsAreStatusLines(messages: seq<Message>, line: string)
    ensures line in StatusLines(messages) ==> line != ""
    ensures line in ReasonLines(messages) ==> line in StatusLines(messages)
  {
    if messages != [] {
      var last := messages[|messages| - 1];
      ReasonsAreStatusLines(messages[..|messages| - 1], line);
      NonEmptyMembers([last.title], line);
      NonEmptyMembers(last.lines, line);
    }
  }

  lemma {:induction false} NonEmptyMembers(lines: seq<string>, line: string)
    ensures line in NonEmpty(lines) <==> line in lines && line != ""
  {
    if lines != [] {
      NonEmptyMembers(lines[..|lines| - 1], line);
      assert lines == lines[..|lines| - 1] + [lines[|lines| - 1]];
    }
  }

  type TimeParser = string -> Option<int>

  function MapRecord(r: Record, added: int): Mapped {
    Mapped(
      Item(ToInt32(r.id), added, Max(r.sizeLeft, 0), Max(r.size, 0), ToInt32(r.score), ToInt32(r.mediaId),
           r.media.None? || r.media.value.monitored, None, r.texts, StatusLines(r.messages), ReasonLines(r.messages)),
      if r.media.None? then 0 else r.media.value.fileId)
  }

  /** A number kept as it is where 32 bits hold it. */
  ghost predicate FitsIn(r: int, x: int) {
    -0x8000_0000 <= r < 0x8000_0000 && (-0x8000_0000 <= x < 0x8000_0000 ==> r == x)
  }

  /** An amount is never negative. */
  ghost predicate IsAmount(r: int, x: int) {
    if x < 0 then r == 0 else r == x
  }

  /** What an item takes over from its record; a missing movie or episode is monitored and has no file. */
  ghost predicate TakesOver(m: Mapped, r: Record, added: int) {
    && FitsIn(m.item.id, r.id) && FitsIn(m.item.score, r.score) && FitsIn(m.item.mediaId, r.mediaId)
    && IsAmount(m.item.size, r.size) && IsAmount(m.item.sizeLeft, r.sizeLeft)
    && m.item.added == added && m.item.texts == r.texts && m.item.existingScore.None?
    && (r.media.None? ==> m.item.monitored && m.fileId == 0)
    && (r.media.Some? ==> m.item.monitored == r.media.value.monitored && m.fileId == r.media.value.fileId)
    && m.item.statusLines == StatusLines(r.messages) && m.item.reasonLines == ReasonLines(r.messages)
  }

  lemma MapRecordTakesOver(r: Record, added: int)
    ensures TakesOver(MapRecord(r, added), r, added)
  {
  }

  /** The records whose added time parses, mapped, in order. */
  function MapAll(records: seq<Record>, parse: TimeParser): seq<Mapped> {
    if records == [] then [] else
    var last := records[|records| - 1];
    MapAll(records[..|records| - 1], parse)
      + (if parse(last.added).None? then [] else [MapRecord(last, parse(last.added).value)])
  }

  method AppendItem(items: seq<Mapped>, r: Record, parse: TimeParser) returns (items': seq<Mapped>)
    ensures items' == items + MapAll([r], parse)
    ensures parse(r.added).None? ==> items' == items
    ensures parse(r.added).Some? ==>
        (&& |items'| == |items| + 1 && items'[..|items|] == items
         && TakesOver(items'[|items|], r, parse(r.added).value))
  {
    assert [r][..0] == [];
    var added := parse(r.added);
    if added.None? {
      assert MapAll([r], parse) == [];
      return items;
    }
    var status, reasons := FlattenMessages(r.messages);
    var item := Item(ToInt32(r.id), added.value, Max(r.sizeLeft, 0), Max(r.size, 0), ToInt32(r.score),
        ToInt32(r.mediaId),
                     r.media.None? || r.media.value.monitored, None, r.texts, status, reasons);
    var mapped := Mapped(item, if r.media.None? then 0 else r.media.value.fileId);
    assert MapAll([r], parse) == [mapped];
    MapRecordTakesOver(r, added.value);
    return items + [mapped];
  }

  lemma {:induction false} MapAllConcat(a: seq<Record>, b: seq<Record>, parse: TimeParser)
    ensures MapAll(a + b, parse) == MapAll(a, parse) + MapAll(b, parse)
  {
    if b == [] {
      assert a + b == a;
    } else {
      assert (a + b)[..|a + b| - 1] == a + b[..|b| - 1];
      MapAllConcat(a, b[..|b| - 1], parse);
    }
  }

  // ----- pages -----

  datatype Response = Response(records: seq<Record>, total: int)

  type Server = (int, int) -> Result<Response, Error>

  /** The records that are read from a page on, when so many were seen before it. */
  function RecordsFrom(serve: Server, page: int, maxPages: int, size: int, seen: int): Result<seq<Record>, Error>
    decreases maxPages - page
  {
    if page > maxPages then Ok([])
    else
      var response := serve(page, size);
      if response.Err? then Err(response.error)
      else
        var got, seen' := response.value.records, seen + |response.value.records|;
        if got == [] || seen' >= response.value.total then Ok(got)
        else
          var rest := RecordsFrom(serve, page + 1, maxPages, size, seen');
          if rest.Err? then rest else Ok(got + rest.value)
  }

  /** The records of the pages before one. */
  ghost function Before(serve: Server, size: int, page: int): seq<Record>
    decreases page
  {
    if page <= 1 then []
    else
      var last := serve(page - 1, size);
      Before(serve, size, page - 1) + if last.Ok? then last.value.records else []
  }

  /** The read goes on behind a page that holds records and does not bring them up to the total. */
  ghost predicate GoesOn(serve: Server, size: int, page: int) {
    && serve(page, size).Ok? && serve(page, size).value.records != []
    && |Before(serve, size, page + 1)| < serve(page, size).value.total
  }

  /** A page is asked for when the read goes on behind all pages before it. */
  ghost predicate IsAsked(serve: Server, size: int, page: int) {
    forall q :: 1 <= q < page ==> GoesOn(serve, size, q)
  }

  ghost predicate EndsAt(serve: Server, maxPages: int, size: int, page: int) {
    && 1 <= page <= maxPages && IsAsked(serve, size, page) && serve(page, size).Ok?
    && (page == maxPages || !GoesOn(serve, size, page))
  }

  /** A read fails exactly when a page it asks for does; else it yields all pages up to the one it ends at. */
  lemma {:induction false} ReadIs(serve: Server, page: int, maxPages: int, size: int)
    requires 1 <= page <= maxPages && IsAsked(serve, size, page)
    ensures var seen := Before(serve, size, page);
            var r := RecordsFrom(serve, page, maxPages, size, |seen|);
      && (r.Err? ==> exists p :: page <= p <= maxPages && IsAsked(serve, size, p) && serve(p, size) == Err(r.error))
      && (r.Ok? ==> exists p ::
            page <= p && EndsAt(serve, maxPages, size, p) && seen + r.value == Before(serve, size, p + 1))
    decreases maxPages - page
  {
    var seen, response := Before(serve, size, page), serve(page, size);
    var r := RecordsFrom(serve, page, maxPages, size, |seen|);
    if response.Ok? {
      var got := response.value.records;
      assert Before(serve, size, page + 1) == seen + got && |seen + got| == |seen| + |got|;
      if GoesOn(serve, size, page) && page < maxPages {
        ReadIs(serve, page + 1, maxPages, size);
        var rest := RecordsFrom(serve, page + 1, maxPages, size, |seen + got|);
        if r.Ok? {
          assert seen + r.value == (seen + got) + rest.value;
        }
      } else {
        assert EndsAt(serve, maxPages, size, page);
        assert page == maxPages ==> RecordsFrom(serve, page + 1, maxPages, size, |seen + got|) == Ok([]);
        assert got + [] == got;
        assert r == Ok(got);
      }
    }
  }

  /** The server hands out one unchanging list, page by page. */
  ghost predicate IsStable(serve: Server, records: seq<Record>, size: int) {
    forall page :: page >= 1 ==> serve(page, size) == Ok(Response(PageOf(records, page, size), |records|))
  }

  function PageOf(records: seq<Record>, page: int, size: int): seq<Record> {
    records[Clip(records, (page - 1) * size)..Max(Clip(records, (page - 1) * size), Clip(records, page * size))]
  }

  function Clip(records: seq<Record>, n: int): (i: nat)
    ensures i <= |records|
    ensures 0 <= n <= |records| ==> i == n
    ensures n > |records| ==> i == |records|
  {
    Max(0, Min(n, |records|))
  }

  /** From a page on, what is read is what the pages left can hold. */
  lemma {:induction false} StableFrom(serve: Server, records: seq<Record>, page: int, maxPages: int, size: int,
                                      start: nat)
    requires IsStable(serve, records, size) && size > 0
    requires 1 <= page <= maxPages && start == (page - 1) * size && start <= |records|
    ensures RecordsFrom(serve, page, maxPages, size, start)
      == Ok(records[start..Max(start, Clip(records, maxPages * size))])
    decreases maxPages - page
  {
    var next := page * size;
    assert next == start + size;
    var got := PageOf(records, page, size);
    assert serve(page, size) == Ok(Response(got, |records|));
    var end := Clip(records, next);
    assert got == records[start..end];
    MorePagesReachFurther(page, maxPages, size);
    if start + |got| < |records| {
      assert end == next;
      if page < maxPages {
        StableFrom(serve, records, page + 1, maxPages, size, next);
        MorePagesReachFurther(page + 1, maxPages, size);
        SplitAt(records, start, next, Clip(records, maxPages * size));
      } else {
        assert RecordsFrom(serve, page + 1, maxPages, size, next) == Ok([]);
        assert got + [] == got;
      }
    }
  }

  lemma SplitAt(records: seq<Record>, a: nat, b: nat, c: nat)
    requires a <= b <= c <= |records|
    ensures records[a..b] + records[b..c] == records[a..c]
  {
  }

  lemma MorePagesReachFurther(page: int, maxPages: int, size: int)
    requires page <= maxPages && size > 0
    ensures page * size <= maxPages * size
  {
  }

  function OrDefault(n: int, default_: int): (r: int)
    requires default_ > 0
    ensures r > 0 && (n > 0 ==> r == n) && (n <= 0 ==> r == default_)
  {
    if n <= 0 then default_ else n
  }

  // ----- file scores -----

  /** The reader of file scores; some kinds of server have none. A failed read is an unknown score. */
  type ScoreReader = Option<int -> Option<int>>

  /** The files whose score is read: each once, in the order they first come, and no more than the limit. */
  function Lookups(mapped: seq<Mapped>, limit: nat): seq<int> {
    if mapped == [] then [] else
    var before, id := Lookups(mapped[..|mapped| - 1], limit), mapped[|mapped| - 1].fileId;
    if id > 0 && id !in before && |before| < limit then before + [id] else before
  }

  /** The item with what is known of its file once the given files were read. */
  function Scored(m: Mapped, reader: ScoreReader, read: seq<int>): Item {
    if m.fileId <= 0 || reader.None? then m.item
    else m.item.(existingScore := if m.fileId in read then reader.value(m.fileId) else None)
  }

  function ScoredAll(mapped: seq<Mapped>, reader: ScoreReader, read: seq<int>): (items: seq<Item>)
    ensures |items| == |mapped| && forall i :: 0 <= i < |mapped| ==> items[i] == Scored(mapped[i], reader, read)
  {
    seq(|mapped|, i requires 0 <= i < |mapped| => Scored(mapped[i], reader, read))
  }

  lemma ScoredAppend(mapped: seq<Mapped>, i: nat, reader: ScoreReader, read: seq<int>)
    requires i < |mapped|
    ensures ScoredAll(mapped[..i + 1], reader, read)
      == ScoredAll(mapped[..i], reader, read) + [Scored(mapped[i], reader, read)]
  {
  }

  /** The memo holds the scores of the files read. */
  ghost predicate Remembers(scores: map<int, Option<int>>, reader: ScoreReader, read: seq<int>) {
    && Distinct(read) && ToSet(read) == scores.Keys
    && forall id :: id in scores ==> reader.Some? && scores[id] == reader.value(id)
  }

  lemma {:induction false} LookupsAreDistinct(mapped: seq<Mapped>, limit: nat)
    ensures Distinct(Lookups(mapped, limit)) && |Lookups(mapped, limit)| <= limit
  {
    if mapped != [] {
      LookupsAreDistinct(mapped[..|mapped| - 1], limit);
    }
  }

  lemma {:induction false} LookupsGrow(mapped: seq<Mapped>, limit: nat, i: nat)
    requires i <= |mapped|
    ensures Lookups(mapped[..i], limit) <= Lookups(mapped, limit)
    ensures i < |mapped| && mapped[i].fileId > 0 && mapped[i].fileId in Lookups(mapped, limit) ==>
              mapped[i].fileId in Lookups(mapped[..i + 1], limit)
    decreases |mapped| - i
  {
    if i < |mapped| {
      LookupsGrow(mapped, limit, i + 1);
      assert mapped[..i + 1][..i] == mapped[..i];
      if mapped[i].fileId !in Lookups(mapped[..i + 1], limit) && mapped[i].fileId > 0 {
        FullStaysFull(mapped, limit, i + 1);
      }
    } else {
      assert mapped[..i] == mapped;
    }
  }

  /** Once the limit is met no more files are read. */
  lemma {:induction false} FullStaysFull(mapped: seq<Mapped>, limit: nat, i: nat)
    requires i <= |mapped| && |Lookups(mapped[..i], limit)| >= limit
    ensures Lookups(mapped, limit) == Lookups(mapped[..i], limit)
    decreases |mapped|
  {
    if i < |mapped| {
      assert mapped[..|mapped| - 1][..i] == mapped[..i];
      FullStaysFull(mapped[..|mapped| - 1], limit, i);
    } else {
      assert mapped[..i] == mapped;
    }
  }

  /** The read list after one more file was asked for. */
  function OneMore(read: seq<int>, id: int, limit: nat): seq<int> {
    if id > 0 && id !in read && |read| < limit then read + [id] else read
  }

  /** The memo's answer for one file: what it holds, else a read while the limit allows, else unknown. */
  method ScoreOf(scores: map<int, Option<int>>, reader: ScoreReader, id: int, ghost read: seq<int>)
    returns (score: Option<int>, scores': map<int, Option<int>>)
    requires reader.Some? && id > 0 && Remembers(scores, reader, read)
    ensures Remembers(scores', reader, OneMore(read, id, MAX_FILE_LOOKUPS))
    ensures score == if id in OneMore(read, id, MAX_FILE_LOOKUPS) then reader.value(id) else None
  {
    score, scores' := None, scores;
    DistinctCardinality(read);
    assert |scores| == |scores.Keys| == |read|;
    assert id in read <==> id in ToSet(read);
    if id in scores {
      score := scores[id];
    } else if |scores| < MAX_FILE_LOOKUPS {
      score := reader.value(id);
      ToSetAppend(read, id);
      scores' := scores[id := score];
    }
  }

  /** An item's file is read by the end exactly when it was read by the time the item is reached. */
  lemma ReadByThen(mapped: seq<Mapped>, limit: nat, i: nat)
    requires i < |mapped|
    ensures Lookups(mapped[..i + 1], limit) == OneMore(Lookups(mapped[..i], limit), mapped[i].fileId, limit)
    ensures mapped[i].fileId > 0 ==>
        (mapped[i].fileId in Lookups(mapped[..i + 1], limit) <==> mapped[i].fileId in Lookups(mapped, limit))
  {
    assert mapped[..i + 1][..i] == mapped[..i];
    LookupsGrow(mapped, limit, i);
    LookupsGrow(mapped, limit, i + 1);
  }

  /** One turn: the item gets the score its file has in the end. */
  method ScoreItem(mapped: seq<Mapped>, i: nat, reader: ScoreReader, scores: map<int, Option<int>>,
                   ghost read: seq<int>)
    returns (item: Item, scores': map<int, Option<int>>, ghost read': seq<int>)
    requires i < |mapped| && Remembers(scores, reader, read)
    requires read == if reader.None? then [] else Lookups(mapped[..i], MAX_FILE_LOOKUPS)
    ensures read' == if reader.None? then [] else Lookups(mapped[..i + 1], MAX_FILE_LOOKUPS)
    ensures Remembers(scores', reader, read')
    ensures item == Scored(mapped[i], reader, if reader.None? then [] else Lookups(mapped, MAX_FILE_LOOKUPS))
  {
    item, scores', read' := mapped[i].item, scores, read;
    ReadByThen(mapped, MAX_FILE_LOOKUPS, i);
    if mapped[i].fileId > 0 && reader.Some? {
      var score;
      score, scores' := ScoreOf(scores, reader, mapped[i].fileId, read);
      read' := OneMore(read, mapped[i].fileId, MAX_FILE_LOOKUPS);
      item := item.(existingScore := score);
    }
  }

  /**
   * The scores are filled in one pass over the items. The log names the files asked about, in order.
   */
  method WithFileScores(mapped: seq<Mapped>, reader: ScoreReader) returns (items: seq<Item>, ghost log: seq<int>)
    ensures log == if reader.None? then [] else Lookups(mapped, MAX_FILE_LOOKUPS)
    ensures items == ScoredAll(mapped, reader, if reader.None? then [] else Lookups(mapped, MAX_FILE_LOOKUPS))
  {
    items, log := [], [];
    ghost var final := if reader.None? then [] else Lookups(mapped, MAX_FILE_LOOKUPS);
    var scores: map<int, Option<int>> := map[];
    for i := 0 to |mapped|
      invariant log == if reader.None? then [] else Lookups(mapped[..i], MAX_FILE_LOOKUPS)
      invariant Remembers(scores, reader, log)
      invariant items == ScoredAll(mapped[..i], reader, final)
    {
      var item;
      item, scores, log := ScoreItem(mapped, i, reader, scores, log);
      ScoredAppend(mapped, i, reader, final);
      items := items + [item];
    }
    assert mapped[..|mapped|] == mapped;
  }

  /** The distinct positive file ids in the order they first come. */
  function FirstIds(mapped: seq<Mapped>): seq<int> {
    if mapped == [] then [] else
    var before, id := FirstIds(mapped[..|mapped| - 1]), mapped[|mapped| - 1].fileId;
    if id > 0 && id !in before then before + [id] else before
  }

  /** The files read are the first so many distinct ones. */
  lemma {:induction false} LookupsAreFirst(mapped: seq<Mapped>, limit: nat)
    ensures Lookups(mapped, limit) == FirstIds(mapped)[..Min(limit, |FirstIds(mapped)|)]
    ensures forall k :: 0 <= k < |mapped| && mapped[k].fileId > 0 ==> mapped[k].fileId in FirstIds(mapped)
  {
    if mapped != [] {
      var init := mapped[..|mapped| - 1];
      LookupsAreFirst(init, limit);
      var before, all, id := FirstIds(init), FirstIds(mapped), mapped[|mapped| - 1].fileId;
      assert forall k :: 0 <= k < |init| ==> init[k] == mapped[k];
      if |before| <= limit {
        assert before[..Min(limit, |before|)] == before;
      } else {
        assert all[..limit] == before[..limit];
      }
    }
  }

  /**
   * An item has its file's score exactly when the file is among the first fifty distinct ones, wherever
   * in the queue the item stands; otherwise the score is unknown.
   */
  lemma ScoreIsKnownIff(mapped: seq<Mapped>, reader: ScoreReader, i: nat)
    requires i < |mapped| && reader.Some? && mapped[i].fileId > 0
    ensures var first := FirstIds(mapped);
            Scored(mapped[i], reader, Lookups(mapped, MAX_FILE_LOOKUPS)).existingScore
               == if mapped[i].fileId in first[..Min(50, |first|)]
                  then reader.value(mapped[i].fileId) else None
  {
    LookupsAreFirst(mapped, MAX_FILE_LOOKUPS);
  }

  /** Each file is asked about once at most, and no more than fifty are; within fifty none is left out. */
  lemma LookupsAreFew(mapped: seq<Mapped>)
    ensures Distinct(Lookups(mapped, MAX_FILE_LOOKUPS)) && |Lookups(mapped, MAX_FILE_LOOKUPS)| <= 50
    ensures |FirstIds(mapped)| <= 50 ==>
              forall k :: 0 <= k < |mapped| && mapped[k].fileId > 0 ==>
                  mapped[k].fileId in Lookups(mapped, MAX_FILE_LOOKUPS)
  {
    LookupsAreDistinct(mapped, MAX_FILE_LOOKUPS);
    LookupsAreFirst(mapped, MAX_FILE_LOOKUPS);
  }

  // ----- the whole read -----

  method Queue(serve: Server, reader: ScoreReader, parse: TimeParser, maxPages: int, pageSize: int)
    returns (result: Result<seq<Item>, Error>)
    ensures var pages, size := if maxPages > 0 then maxPages else 10, if pageSize > 0 then pageSize else 200;
            var read := RecordsFrom(serve, 1, pages, size, 0);
            if read.Err? then result == Err(read.error)
            else
              var mapped := MapAll(read.value, parse);
              result == Ok(ScoredAll(mapped, reader, if reader.None? then [] else Lookups(mapped, MAX_FILE_LOOKUPS)))
  {
    var mapped := ReadPages(serve, parse, OrDefault(maxPages, DEFAULT_PAGES), OrDefault(pageSize, DEFAULT_PAGE_SIZE));
    if mapped.Err? {
      return Err(mapped.error);
    }
    var items, log := WithFileScores(mapped.value, reader);
    return Ok(items);
  }

  method ReadPages(serve: Server, parse: TimeParser, pages: int, size: int) returns (result: Result<seq<Mapped>, Error>)
    requires pages > 0
    ensures var read := RecordsFrom(serve, 1, pages, size, 0);
            result == if read.Err? then Err(read.error) else Ok(MapAll(read.value, parse))
  {
    ghost var all := RecordsFrom(serve, 1, pages, size, 0);
    var mapped := [];
    ghost var read: seq<Record> := [];
    var seen := 0;
    JoinNothing(all);
    for page := 1 to pages + 1
      invariant mapped == MapAll(read, parse)
      invariant all == Join(read, RecordsFrom(serve, page, pages, size, seen))
    {
      var response := serve(page, size);
      if response.Err? {
        return Err(response.error);
      }
      PageIsJoined(serve, page, pages, size, seen, seen + |response.value.records|, read, response.value, all);
      mapped := MapPage(mapped, read, response.value.records, parse);
      seen := seen + |response.value.records|;
      read := read + response.value.records;
      if |response.value.records| == 0 || seen >= response.value.total {
        return Ok(mapped);
      }
    }
    JoinEnds(read);
    return Ok(mapped);
  }

  lemma JoinEnds(read: seq<Record>)
    ensures Join(read, Ok([])) == Ok(read)
  {
    assert read + [] == read;
  }

  /** The records of one page are mapped behind those of the pages before. */
  method MapPage(mapped: seq<Mapped>, ghost read: seq<Record>, got: seq<Record>, parse: TimeParser)
    returns (mapped': seq<Mapped>)
    requires mapped == MapAll(read, parse)
    ensures mapped' == MapAll(read + got, parse)
  {
    mapped' := AppendAll(mapped, got, parse);
    MapAllConcat(read, got, parse);
  }

  /** After one page, what was read and what is read from the next page on make up the whole. */
  lemma PageIsJoined(serve: Server, page: int, pages: int, size: int, seen: int, seen': int, read: seq<Record>,
                     response: Response, all: Result<seq<Record>, Error>)
    requires page <= pages && serve(page, size) == Ok(response) && seen' == seen + |response.records|
    requires all == Join(read, RecordsFrom(serve, page, pages, size, seen))
    ensures response.records == [] || seen' >= response.total ==> all == Ok(read + response.records)
    ensures response.records != [] && seen' < response.total ==>
              all == Join(read + response.records, RecordsFrom(serve, page + 1, pages, size, seen'))
  {
    JoinMore(read, response.records, RecordsFrom(serve, page + 1, pages, size, seen'));
  }

  lemma JoinNothing(rest: Result<seq<Record>, Error>)
    ensures Join([], rest) == rest
  {
    if rest.Ok? {
      assert [] + rest.value == rest.value;
    }
  }

  function Join(read: seq<Record>, rest: Result<seq<Record>, Error>): Result<seq<Record>, Error> {
    if rest.Err? then rest else Ok(read + rest.value)
  }

  lemma JoinMore(read: seq<Record>, got: seq<Record>, rest: Result<seq<Record>, Error>)
    ensures Join(read, Join(got, rest)) == Join(read + got, rest)
  {
    if rest.Ok? {
      assert read + (got + rest.value) == (read + got) + rest.value;
    }
  }

  method AppendAll(items: seq<Mapped>, records: seq<Record>, parse: TimeParser) returns (items': seq<Mapped>)
    ensures items' == items + MapAll(records, parse)
  {
    items' := items;
    for k := 0 to |records|
      invariant items' == items + MapAll(records[..k], parse)
    {
      items' := AppendItem(items', records[k], parse);
      MapAllConcat(records[..k], [records[k]], parse);
      assert records[..k + 1] == records[..k] + [records[k]];
    }
    assert records[..|records|] == records;
  }

  /**
   * Over a queue that does not change, what is read is the first so many records as the pages can hold,
   * in order and without gap or repeat.
   */
  lemma StableQueueIsRead(serve: Server, records: seq<Record>, maxPages: int, pageSize: int)
    requires maxPages > 0 && pageSize > 0 && IsStable(serve, records, pageSize)
    ensures RecordsFrom(serve, 1, maxPages, pageSize, 0) == Ok(records[..Min(maxPages * pageSize, |records|)])
  {
    MorePagesReachFurther(1, maxPages, pageSize);
    StableFrom(serve, records, 1, maxPages, pageSize, 0);
  }
}
