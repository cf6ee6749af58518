/** Reading a whole range page by page, each page starting at the text cursor of the last element. */
module Paging {
  import opened Bytes
  import opened SortedSets
  import opened Cursors
  import opened RangeRead

  /** Every score is a double, so every element has a cursor text. */
  predicate DoubleScores(z: ZSet) {
    forall m | m in z :: IsDouble(z[m])
  }

  /** In a descending sequence, the elements past the j-th are exactly the later ones. */
  lemma {:induction false} PastElement(s: seq<Entry>, j: nat)
    requires Descending(s) && j < |s|
    ensures Filter(s, Past(s[j])) == s[j + 1..]
  {
    var p := Past(s[j]);
    var head, tail := s[..j + 1], s[j + 1..];
    assert s == head + tail;
    forall i | 0 <= i < |head| ensures !p.Holds(head[i]) {
      AboveOrder(head[i], s[j]);
      if i < j { assert Above(s[i], s[j]); }
    }
    forall i | 0 <= i < |tail| ensures p.Holds(tail[i]) {
      assert Above(s[j], s[j + 1 + i]);
    }
    FilterAppend(head, tail, p);
    FilterNone(head, p);
    FilterAll(tail, p);
  }

  /** Restarting a range at one of its own elements leaves exactly what follows that element. */
  lemma RestartedRange(z: ZSet, start: Cursor, stop: Cursor, j: nat)
    requires j < |Between(z, start, stop)|
    ensures Between(z, Between(z, start, stop)[j], stop) == Between(z, start, stop)[j + 1..]
  {
    var all, range := Listing(z), Between(z, start, stop);
    var c := range[j];
    ListingCorrect(z);
    FilterMembers(all, Wanted(start, stop));
    FilterDescending(all, Wanted(start, stop));
    assert c in range;
    PastElement(range, j);
    FilterOfBoth(all, start, c, stop);
  }

  lemma {:induction false} FilterOfBoth(s: seq<Entry>, start: Cursor, c: Cursor, stop: Cursor)
    requires PastStart(start, c)
    ensures Filter(Filter(s, Wanted(start, stop)), Past(c)) == Filter(s, Wanted(c, stop))
  {
    if s != [] {
      var last := s[|s| - 1];
      FilterOfBoth(s[..|s| - 1], start, c, stop);
      if PastStart(c, last) && last.score == c.score == start.score {
        LexTransitive(last.member, c.member, start.member);
      }
    }
  }

  function Concat(pages: seq<seq<Entry>>): seq<Entry> {
    if pages == [] then [] else Concat(pages[..|pages| - 1]) + pages[|pages| - 1]
  }

  /** Every page but the last is full. */
  predicate AllButLastFull(pages: seq<seq<Entry>>, limit: nat) {
    forall i | 0 <= i < |pages| - 1 :: |pages[i]| == limit
  }

  /** The pages so far and the rest of the range: a short page has nothing after it. */
  predicate PagesOf(range: seq<Entry>, pages: seq<seq<Entry>>, rest: seq<Entry>, limit: nat) {
    && range == Concat(pages) + rest
    && AllButLastFull(pages, limit)
    && (pages != [] ==> |pages[|pages| - 1]| == limit || rest == [])
  }

  /** The range read from the cursor is answered: its fourth selection is not used up first. */
  predicate Readable(z: ZSet, cursor: Cursor, stop: Cursor, limit: nat) {
    !Starved(z, cursor, stop, limit, SelectLimit(limit, MAX_ATTEMPTS - 1))
  }

  /** `size` elements fill a number of pages. */
  predicate FullPages(limit: nat, size: nat)
    requires limit >= 1
    decreases size
  {
    size == 0 || (size >= limit && FullPages(limit, size - limit))
  }

  /** A page is read after every full page, and once more at the end of the range. */
  predicate PageStart(size: nat, limit: nat, at: nat)
    requires limit >= 1
  {
    at == size || (at < size && FullPages(limit, at))
  }

  /** Where a page after the first `at` elements starts. */
  function CursorAt(range: seq<Entry>, start: Cursor, at: nat): Cursor
    requires at <= |range|
  {
    if at == 0 then start else range[at - 1]
  }

  /** Every page start before the given position can be read from. */
  predicate ReadableBefore(z: ZSet, start: Cursor, stop: Cursor, limit: nat, end: nat)
    requires limit >= 1
  {
    var range := Between(z, start, stop);
    forall at | 0 <= at < end && PageStart(|range|, limit, at) :: Readable(z, CursorAt(range, start, at), stop, limit)
  }

  lemma {:induction false} BetweenPages(limit: nat, at: nat, x: nat)
    requires limit >= 1 && FullPages(limit, at) && at < x < at + limit
    ensures !FullPages(limit, x)
  {
    if at > 0 {
      BetweenPages(limit, at - limit, x - limit);
    }
  }

  lemma NextStart(size: nat, limit: nat, at: nat, next: nat)
    requires limit >= 1 && PageStart(size, limit, at) && at < size
    requires next == if size - at <= limit then size else at + limit
    ensures PageStart(size, limit, next)
    ensures forall x | at < x < next :: !PageStart(size, limit, x)
  {
    forall x | at < x < next
      ensures !PageStart(size, limit, x)
    {
      BetweenPages(limit, at, x);
    }
  }

  /** The first `at` elements of the range have been read, page by page, and the cursor is there. */
  ghost predicate ReadTo(z: ZSet, start: Cursor, stop: Cursor, limit: nat, at: nat, cursor: Cursor, pages: seq<seq<Entry>>)
    requires limit >= 1
  {
    var range := Between(z, start, stop);
    && at <= |range| && PageStart(|range|, limit, at)
    && cursor == CursorAt(range, start, at) && Between(z, cursor, stop) == range[at..]
    && PagesOf(range, pages, range[at..], limit)
    && ReadableBefore(z, start, stop, limit, at)
  }

  lemma ReadOn(z: ZSet, start: Cursor, stop: Cursor, limit: nat, at: nat, cursor: Cursor, pages: seq<seq<Entry>>)
    requires limit >= 1 && DoubleScores(z) && ReadTo(z, start, stop, limit, at, cursor, pages)
    requires Readable(z, cursor, stop, limit) && at < |Between(z, start, stop)|
    ensures var page := Take(Between(z, cursor, stop), limit);
            && IsDouble(page[|page| - 1].score)
            && at + |page| <= |Between(z, start, stop)|
            && ReadTo(z, start, stop, limit, at + |page|, page[|page| - 1], pages + [page])
  {
    hide Between, PagesOf, Readable, PageStart, DoubleScores, IsDouble;
    var range := Between(z, start, stop);
    var page := Take(Between(z, cursor, stop), limit);
    var after := Between(z, page[|page| - 1], stop);
    NextPage(z, cursor, stop, limit);
    assert range[at..][|page|..] == range[at + |page|..];
    AppendPage(range, pages, range[at..], limit, page, after);
    NextStart(|range|, limit, at, at + |page|);
  }

  /**
   * A client reading page after page through text cursors, until a page comes back empty. The
   * reading succeeds exactly if no page starts deep inside a group of equal scores; then the pages
   * hold the whole range once each, in order. It ends in either case.
   */
  method ReadPages(server: map<Key, ZSet>, key: Key, start: Cursor, stop: Cursor, limit: nat)
    returns (ok: bool, pages: seq<seq<Entry>>)
    requires limit >= 1 && DoubleScores(Plus(server, key))
    ensures var range := Between(Plus(server, key), start, stop);
            ok <==> ReadableBefore(Plus(server, key), start, stop, limit, |range| + 1)
    ensures ok ==> Concat(pages) == Between(Plus(server, key), start, stop)
    ensures ok ==> AllButLastFull(pages, limit)
  {
    hide Between, Readable, PagesOf, PageStart;
    ghost var z := Plus(server, key);
    ghost var range := Between(z, start, stop);
    ghost var at := 0;
    var cursor := start;
    ok, pages := true, [];
    NothingRead(z, start, stop, limit);
    while true
      invariant ReadTo(z, start, stop, limit, at, cursor, pages)
      decreases |range| - at
    {
      var page;
      ok, page := ReadPage(server, key, cursor, stop, limit);
      if !ok || page == [] {
        ReadingEnds(z, start, stop, limit, at, cursor, pages);
        return;
      }
      ReadOn(z, start, stop, limit, at, cursor, pages);
      pages := pages + [page];
      cursor := NextCursor(page[|page| - 1]);
      at := at + |page|;
    }
  }

  lemma NothingRead(z: ZSet, start: Cursor, stop: Cursor, limit: nat)
    requires limit >= 1
    ensures ReadTo(z, start, stop, limit, 0, start, [])
  {
    var range := Between(z, start, stop);
    assert range[0..] == range && Concat([]) + range == range;
  }

  /** The reading ends with a page that could not be read, or with an empty one at the end of the range. */
  lemma ReadingEnds(z: ZSet, start: Cursor, stop: Cursor, limit: nat, at: nat, cursor: Cursor, pages: seq<seq<Entry>>)
    requires limit >= 1 && ReadTo(z, start, stop, limit, at, cursor, pages)
    requires Readable(z, cursor, stop, limit) ==> Take(Between(z, cursor, stop), limit) == []
    ensures Readable(z, cursor, stop, limit) <==> ReadableBefore(z, start, stop, limit, |Between(z, start, stop)| + 1)
    ensures Readable(z, cursor, stop, limit) ==> Concat(pages) == Between(z, start, stop) && AllButLastFull(pages, limit)
  {
    var range := Between(z, start, stop);
    if Readable(z, cursor, stop, limit) {
      assert range[at..] == [];
      assert Concat(pages) + [] == Concat(pages);
    }
    hide Between, Readable;
  }

  method ReadPage(server: map<Key, ZSet>, key: Key, cursor: Cursor, stop: Cursor, limit: nat)
    returns (ok: bool, page: seq<Entry>)
    ensures ok <==> Readable(Plus(server, key), cursor, stop, limit)
    ensures ok ==> page == Take(Between(Plus(server, key), cursor, stop), limit)
  {
    var r := PipelineRangeByScore(server, [key], cursor, stop, limit);
    ok := r.Ok?;
    page := if ok then r.elements[key] else [];
    assert key in [key];
  }

  lemma AppendPage(range: seq<Entry>, pages: seq<seq<Entry>>, rest: seq<Entry>, limit: nat,
                   page: seq<Entry>, after: seq<Entry>)
    requires PagesOf(range, pages, rest, limit) && page != []
    requires rest == page + after && (|page| == limit || after == [])
    ensures PagesOf(range, pages + [page], after, limit)
  {
    assert (pages + [page])[..|pages|] == pages;
    assert Concat(pages) + (page + after) == (Concat(pages) + page) + after;
  }

  /** The cursor the client gets back after the element's cursor has been through its text form. */
  method NextCursor(last: Entry) returns (cursor: Cursor)
    requires IsDouble(last.score)
    ensures cursor == last
  {
    CursorRoundTrip(last);
    var next := new CursorObject();
    var ok := next.Parse(Text(last));
    cursor := Entry(next.score, next.member);
  }

  lemma NextPage(z: ZSet, cursor: Cursor, stop: Cursor, limit: nat)
    requires limit >= 1 && DoubleScores(z) && Between(z, cursor, stop) != []
    ensures var range, page := Between(z, cursor, stop), Take(Between(z, cursor, stop), limit);
            && IsDouble(page[|page| - 1].score)
            && range == page + Between(z, page[|page| - 1], stop)
            && |Between(z, page[|page| - 1], stop)| < |range|
            && (|page| < limit ==> Between(z, page[|page| - 1], stop) == [])
  {
    var range := Between(z, cursor, stop);
    var page := Take(range, limit);
    RestartedRange(z, cursor, stop, |page| - 1);
    ListingCorrect(z);
    FilterMembers(Listing(z), Wanted(cursor, stop));
    assert page[|page| - 1] in range;
  }
}
