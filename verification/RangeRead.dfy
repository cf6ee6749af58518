/**
 * The cursor-based range read: ask each key's "+" set for its first selectLimit elements at or
 * below the start score, walk past the cursor, and retry the starved keys with a larger limit.
 */
module RangeRead {
  import opened Bytes
  import opened SortedSets
  import opened Cursors

  /** The element may be listed after the start cursor. */
  predicate PastStart(start: Cursor, e: Entry) {
    e.score < start.score || (e.score == start.score && LexLess(e.member, start.member))
  }

  /** The element is listed before the stop cursor. */
  predicate BeforeStop(stop: Cursor, e: Entry) {
    e.score > stop.score || (e.score == stop.score && LexLess(stop.member, e.member))
  }

  /** The tests a listing is filtered by. */
  datatype Test =
    | AtMost(max: Score)
    | Past(start: Cursor)
    | Held(start: Cursor)
    | Wanted(start: Cursor, stop: Cursor)
    | Beyond(start: Cursor, stop: Cursor)
  {
    predicate Holds(e: Entry) {
      match this
      case AtMost(max) => e.score <= max
      case Past(start) => PastStart(start, e)
      case Held(start) => e.score == start.score && !PastStart(start, e)
      case Wanted(start, stop) => PastStart(start, e) && BeforeStop(stop, e)
      case Beyond(start, stop) => PastStart(start, e) && !BeforeStop(stop, e)
    }
  }

  function Filter(s: seq<Entry>, p: Test): (t: seq<Entry>)
    ensures |t| <= |s|
  {
    if s == [] then []
    else if p.Holds(s[|s| - 1]) then Filter(s[..|s| - 1], p) + [s[|s| - 1]]
    else Filter(s[..|s| - 1], p)
  }

  function Take<T>(s: seq<T>, n: nat): seq<T> {
    if |s| <= n then s else s[..n]
  }

  /** ZREVRANGEBYSCORE max -inf LIMIT 0 n. */
  function RevRangeByScore(z: ZSet, max: Score, n: nat): seq<Entry> {
    Take(Candidates(z, max), n)
  }

  function Candidates(z: ZSet, max: Score): seq<Entry> {
    Filter(Listing(z), AtMost(max))
  }

  /** What the read is for: the elements strictly between the cursors, in listing order. */
  function Between(z: ZSet, start: Cursor, stop: Cursor): seq<Entry> {
    Filter(Listing(z), Wanted(start, stop))
  }

  /** The elements the walk must discard: those at the start score, at or above the cursor. */
  function AtStart(z: ZSet, start: Cursor): seq<Entry> {
    Filter(Listing(z), Held(start))
  }

  function NextLimit(selectLimit: nat): nat {
    if selectLimit < 10 then 25 else if selectLimit < 100 then selectLimit * 2 else selectLimit + 50
  }

  /** The number of elements selected on the given attempt. */
  function SelectLimit(limit: nat, attempt: nat): nat {
    if attempt == 0 then limit else NextLimit(SelectLimit(limit, attempt - 1))
  }

  /** The fourth and last selection, by which a read succeeds or fails. */
  lemma LastSelection(limit: nat)
    ensures SelectLimit(limit, MAX_ATTEMPTS - 1) ==
      if limit < 10 then 100
      else if limit < 25 then 8 * limit
      else if limit < 50 then 4 * limit + 50
      else if limit < 100 then 2 * limit + 100
      else limit + 150
  {
    assert SelectLimit(limit, 1) == NextLimit(limit);
    assert SelectLimit(limit, 2) == NextLimit(NextLimit(limit));
    assert SelectLimit(limit, 3) == NextLimit(NextLimit(NextLimit(limit)));
  }

  /** A selection of n elements is used up before it yields enough or reaches the stop cursor. */
  predicate Starved(z: ZSet, start: Cursor, stop: Cursor, limit: nat, n: nat) {
    && limit > 0
    && |AtStart(z, start)| > n - limit
    && |AtStart(z, start)| + |Between(z, start, stop)| >= n
  }

  const MAX_ATTEMPTS := 4

  // ----- Filters on descending listings -----

  lemma {:induction false} FilterAppend(s: seq<Entry>, t: seq<Entry>, p: Test)
    ensures Filter(s + t, p) == Filter(s, p) + Filter(t, p)
  {
    if t == [] {
      assert s + t == s;
    } else {
      var u := s + t;
      assert u[..|u| - 1] == s + t[..|t| - 1];
      FilterAppend(s, t[..|t| - 1], p);
    }
  }

  lemma {:induction false} FilterMembers(s: seq<Entry>, p: Test)
    ensures forall e :: e in Filter(s, p) <==> e in s && p.Holds(e)
  {
    if s != [] {
      FilterMembers(s[..|s| - 1], p);
      assert s == s[..|s| - 1] + [s[|s| - 1]];
    }
  }

  lemma {:induction false} FilterAll(s: seq<Entry>, p: Test)
    requires forall i | 0 <= i < |s| :: p.Holds(s[i])
    ensures Filter(s, p) == s
  {
    if s != [] {
      FilterAll(s[..|s| - 1], p);
      assert s == s[..|s| - 1] + [s[|s| - 1]];
    }
  }

  lemma {:induction false} FilterNone(s: seq<Entry>, p: Test)
    requires forall i | 0 <= i < |s| :: !p.Holds(s[i])
    ensures Filter(s, p) == []
  {
    if s != [] {
      FilterNone(s[..|s| - 1], p);
    }
  }

  lemma {:induction false} FilterDescending(s: seq<Entry>, p: Test)
    requires Descending(s)
    ensures Descending(Filter(s, p))
  {
    if s != [] {
      var rest := s[..|s| - 1];
      FilterDescending(rest, p);
      FilterMembers(rest, p);
      var f := Filter(rest, p);
      forall i | 0 <= i < |f| ensures Above(f[i], s[|s| - 1]) {
        assert f[i] in rest;
      }
    }
  }

  /** If whatever ranks above a p-element is a p-element, the p-elements come first. */
  lemma {:induction false} FilterSplits(s: seq<Entry>, p: Test, q: Test)
    requires Descending(s)
    requires forall e | e in s :: q.Holds(e) <==> !p.Holds(e)
    requires forall x, y | x in s && y in s && Above(x, y) && p.Holds(y) :: p.Holds(x)
    ensures s == Filter(s, p) + Filter(s, q)
  {
    if s != [] {
      var rest, last := s[..|s| - 1], s[|s| - 1];
      FilterSplits(rest, p, q);
      if p.Holds(last) {
        forall i | 0 <= i < |rest| ensures !q.Holds(rest[i]) {
          assert rest[i] == s[i] && Above(s[i], last);
        }
        FilterNone(rest, q);
      }
      assert s == rest + [last];
    }
  }

  /** Filtering twice is filtering by both. */
  lemma {:induction false} FilterTwice(s: seq<Entry>, p: Test, q: Test)
    requires forall e | e in s && q.Holds(e) :: p.Holds(e)
    ensures Filter(Filter(s, p), q) == Filter(s, q)
  {
    if s != [] {
      FilterTwice(s[..|s| - 1], p, q);
      var f, last := Filter(s[..|s| - 1], p), s[|s| - 1];
      if p.Holds(last) {
        FilterAppend(f, [last], q);
        assert [last][..0] == [];
      }
    }
  }

  // ----- The shape of a selection -----

  /** Discarded elements come before all others, and wanted ones before those beyond the stop. */
  lemma OrderOfTests(start: Cursor, stop: Cursor, x: Entry, y: Entry)
    requires Above(x, y)
    ensures Held(start).Holds(y) && x.score <= start.score ==> Held(start).Holds(x)
    ensures Wanted(start, stop).Holds(y) && PastStart(start, x) ==> Wanted(start, stop).Holds(x)
  {
    if x.score == y.score {
      if LexLess(x.member, start.member) { LexTransitive(y.member, x.member, start.member); }
      if LexLess(stop.member, y.member) { LexTransitive(stop.member, y.member, x.member); }
    }
  }

  /** The candidates are the discarded elements, then the wanted ones, then those beyond the stop. */
  lemma CandidatesShape(z: ZSet, start: Cursor, stop: Cursor) returns (beyond: seq<Entry>)
    ensures Candidates(z, start.score) == AtStart(z, start) + Between(z, start, stop) + beyond
    ensures forall i | 0 <= i < |AtStart(z, start)| :: Held(start).Holds(AtStart(z, start)[i])
    ensures forall i | 0 <= i < |Between(z, start, stop)| :: Wanted(start, stop).Holds(Between(z, start, stop)[i])
    ensures forall i | 0 <= i < |beyond| :: Beyond(start, stop).Holds(beyond[i])
  {
    var all := Listing(z);
    ListingCorrect(z);
    FilterMembers(all, Held(start));
    FilterMembers(all, Wanted(start, stop));
    SplitHeld(all, start);
    SplitWanted(all, start, stop);
    beyond := Filter(Filter(all, Past(start)), Beyond(start, stop));
    FilterMembers(Filter(all, Past(start)), Beyond(start, stop));
  }

  lemma SplitHeld(all: seq<Entry>, start: Cursor)
    requires Descending(all)
    ensures Filter(all, AtMost(start.score)) == Filter(all, Held(start)) + Filter(all, Past(start))
  {
    var low := AtMost(start.score);
    var candidates := Filter(all, low);
    FilterMembers(all, low);
    FilterDescending(all, low);
    forall x, y | x in candidates && y in candidates && Above(x, y) && Held(start).Holds(y)
      ensures Held(start).Holds(x)
    {
      OrderOfTests(start, start, x, y);
    }
    FilterSplits(candidates, Held(start), Past(start));
    FilterTwice(all, low, Held(start));
    FilterTwice(all, low, Past(start));
  }

  lemma SplitWanted(all: seq<Entry>, start: Cursor, stop: Cursor)
    requires Descending(all)
    ensures Filter(all, Past(start)) == Filter(all, Wanted(start, stop)) + Filter(Filter(all, Past(start)), Beyond(start, stop))
  {
    var rest := Filter(all, Past(start));
    FilterMembers(all, Past(start));
    FilterDescending(all, Past(start));
    forall x, y | x in rest && y in rest && Above(x, y) && Wanted(start, stop).Holds(y)
      ensures Wanted(start, stop).Holds(x)
    {
      OrderOfTests(start, stop, x, y);
    }
    FilterSplits(rest, Wanted(start, stop), Beyond(start, stop));
    FilterTwice(all, Past(start), Wanted(start, stop));
  }

  // ----- One key of one attempt -----

  ghost predicate Scanned(values: seq<Entry>, start: Cursor, stop: Cursor, validated: seq<Entry>) {
    && validated == Filter(values, Wanted(start, stop))
    && forall i | 0 <= i < |values| :: !Beyond(start, stop).Holds(values[i])
  }

  /** Either all of values was walked, or the walk ended on the first element at or beyond the stop. */
  ghost predicate ScanOutcome(values: seq<Entry>, start: Cursor, stop: Cursor,
                              collected: nat, validated: seq<Entry>, hitStop: bool) {
    && collected <= |values|
    && if hitStop then
         && collected > 0
         && Scanned(values[..collected - 1], start, stop, validated)
         && Beyond(start, stop).Holds(values[collected - 1])
       else
         collected == |values| && Scanned(values, start, stop, validated)
  }

  /** Walk the selected elements, keeping those past the start, until one is at or beyond the stop. */
  method Scan(values: seq<Entry>, start: Cursor, stop: Cursor)
    returns (collected: nat, validated: seq<Entry>, hitStop: bool)
    ensures ScanOutcome(values, start, stop, collected, validated, hitStop)
  {
    collected, validated, hitStop := 0, [], false;
    while collected < |values| && !hitStop
      invariant collected <= |values|
      invariant hitStop ==> ScanOutcome(values, start, stop, collected, validated, hitStop)
      invariant !hitStop ==> Scanned(values[..collected], start, stop, validated)
      decreases |values| - collected
    {
      var ksm := values[collected];
      ghost var seen := values[..collected + 1];
      assert seen[..|seen| - 1] == values[..collected] && seen[|seen| - 1] == ksm;
      collected := collected + 1;
      if !PastStart(start, ksm) {
        continue; // this element is behind or at the start point
      }
      if !BeforeStop(stop, ksm) {
        hitStop := true;
        continue; // this element is at or beyond the stop point
      }
      validated := validated + [ksm];
    }
    assert values[..|values|] == values;
  }

  /** A scan is usable exactly when the key is not starved, and then its first limit elements are right. */
  lemma ScanDecides(z: ZSet, start: Cursor, stop: Cursor, limit: nat, n: nat,
                    collected: nat, validated: seq<Entry>, hitStop: bool)
    requires ScanOutcome(RevRangeByScore(z, start.score, n), start, stop, collected, validated, hitStop)
    ensures |validated| >= limit || collected < n || hitStop <==> !Starved(z, start, stop, limit, n)
    ensures !Starved(z, start, stop, limit, n) ==> Take(validated, limit) == Take(Between(z, start, stop), limit)
  {
    var beyond := CandidatesShape(z, start, stop);
    ShapedScan(AtStart(z, start), Between(z, start, stop), beyond, start, stop, limit, n,
               collected, validated, hitStop);
  }

  lemma ShapedScan(held: seq<Entry>, wanted: seq<Entry>, beyond: seq<Entry>, start: Cursor, stop: Cursor,
                   limit: nat, n: nat, collected: nat, validated: seq<Entry>, hitStop: bool)
    requires forall i | 0 <= i < |held| :: Held(start).Holds(held[i])
    requires forall i | 0 <= i < |wanted| :: Wanted(start, stop).Holds(wanted[i])
    requires forall i | 0 <= i < |beyond| :: Beyond(start, stop).Holds(beyond[i])
    requires ScanOutcome(Take(held + wanted + beyond, n), start, stop, collected, validated, hitStop)
    ensures |validated| >= limit || collected < n || hitStop
      <==> !(limit > 0 && |held| > n - limit && |held| + |wanted| >= n)
    ensures !(limit > 0 && |held| > n - limit && |held| + |wanted| >= n)
      ==> Take(validated, limit) == Take(wanted, limit)
  {
    var m := ScanPosition(held, wanted, beyond, start, stop, Take(held + wanted + beyond, n),
                          collected, validated, hitStop);
  }

  /** m elements were walked before the end or the stop: they decide what was validated. */
  lemma ScanPosition(held: seq<Entry>, wanted: seq<Entry>, beyond: seq<Entry>, start: Cursor, stop: Cursor,
                     values: seq<Entry>, collected: nat, validated: seq<Entry>, hitStop: bool)
    returns (m: nat)
    requires forall i | 0 <= i < |held| :: Held(start).Holds(held[i])
    requires forall i | 0 <= i < |wanted| :: Wanted(start, stop).Holds(wanted[i])
    requires forall i | 0 <= i < |beyond| :: Beyond(start, stop).Holds(beyond[i])
    requires values <= held + wanted + beyond
    requires ScanOutcome(values, start, stop, collected, validated, hitStop)
    ensures m == if hitStop then collected - 1 else collected
    ensures m <= |held| + |wanted|
    ensures if hitStop then m == |held| + |wanted| else m == |values|
    ensures validated == if m <= |held| then [] else wanted[..m - |held|]
  {
    m := if hitStop then collected - 1 else collected;
    WhereScanEnds(held, wanted, beyond, start, stop, values, m);
    assert values[..m] == (held + wanted)[..m];
    assert !hitStop ==> values[..m] == values;
    ScanOfPrefix(held, wanted, start, stop, m);
    if hitStop {
      assert values[m] == (held + wanted + beyond)[m];
    }
  }

  /** A walk that met nothing beyond the stop ended inside the discarded and wanted elements. */
  lemma WhereScanEnds(held: seq<Entry>, wanted: seq<Entry>, beyond: seq<Entry>, start: Cursor, stop: Cursor,
                      values: seq<Entry>, m: nat)
    requires m <= |values| && values <= held + wanted + beyond
    requires forall i | 0 <= i < |beyond| :: Beyond(start, stop).Holds(beyond[i])
    requires forall i | 0 <= i < m :: !Beyond(start, stop).Holds(values[i])
    ensures m <= |held| + |wanted|
  {
    var k := |held| + |wanted|;
    if k < |values| {
      assert values[k] == (held + wanted + beyond)[k] == beyond[0];
    }
  }

  lemma ScanOfPrefix(held: seq<Entry>, wanted: seq<Entry>, start: Cursor, stop: Cursor, m: nat)
    requires forall i | 0 <= i < |held| :: Held(start).Holds(held[i])
    requires forall i | 0 <= i < |wanted| :: Wanted(start, stop).Holds(wanted[i])
    requires m <= |held| + |wanted|
    ensures Filter((held + wanted)[..m], Wanted(start, stop)) == if m <= |held| then [] else wanted[..m - |held|]
  {
    var p := Wanted(start, stop);
    if m <= |held| {
      assert (held + wanted)[..m] == held[..m];
      FilterNone(held[..m], p);
    } else {
      var w := wanted[..m - |held|];
      assert (held + wanted)[..m] == held + w;
      FilterAppend(held, w, p);
      FilterNone(held, p);
      FilterAll(w, p);
    }
  }

  // ----- The range in terms of the order -----

  /** The entry is in the set, below the start in the order and above the stop. */
  predicate InRange(z: ZSet, start: Cursor, stop: Cursor, e: Entry) {
    Holds(z, e) && Above(start, e) && Above(e, stop)
  }

  /** The range is exactly the entries strictly between the cursors, highest first. */
  lemma BetweenIs(z: ZSet, start: Cursor, stop: Cursor)
    ensures Descending(Between(z, start, stop))
    ensures forall e :: e in Between(z, start, stop) <==> Holds(z, e) && Above(start, e) && Above(e, stop)
  {
    ListingCorrect(z);
    FilterMembers(Listing(z), Wanted(start, stop));
    FilterDescending(Listing(z), Wanted(start, stop));
    hide Listing, Filter;
  }

  /** At most limit entries of the range, highest first, such that none left out ranks above one of them, and full if any is. */
  ghost predicate FirstOfRange(page: seq<Entry>, z: ZSet, start: Cursor, stop: Cursor, limit: nat) {
    && Descending(page) && |page| <= limit
    && (forall e | e in page :: InRange(z, start, stop, e))
    && (forall e | InRange(z, start, stop, e) && e !in page :: |page| == limit && forall i | 0 <= i < |page| :: Above(page[i], e))
  }

  lemma TakeIsFirst(z: ZSet, start: Cursor, stop: Cursor, limit: nat)
    ensures FirstOfRange(Take(Between(z, start, stop), limit), z, start, stop, limit)
  {
    BetweenIs(z, start, stop);
    var range := Between(z, start, stop);
    var page := Take(range, limit);
    hide Between;
    assert forall k | 0 <= k < |page| :: page[k] == range[k];
    forall e | InRange(z, start, stop, e) && e !in page
      ensures |page| == limit && forall i | 0 <= i < |page| :: Above(page[i], e)
    {
      var j :| 0 <= j < |range| && range[j] == e;
      assert j >= |page|;
    }
  }

  // ----- The read -----

  type Key = ByteString

  datatype Result = Ok(elements: map<Key, seq<Entry>>) | NegativeLimit | NotEnough(keys: nat)

  /** The "+" set of a key; Redis treats a missing key as an empty set. */
  function Plus(server: map<Key, ZSet>, key: Key): ZSet {
    if key in server then server[key] else map[]
  }

  /** What one attempt must deliver for a key: nothing if the key is starved, else its answer. */
  ghost predicate Answers(server: map<Key, ZSet>, key: Key, start: Cursor, stop: Cursor, limit: nat,
                          n: nat, m: map<Key, seq<Entry>>) {
    && (key in m <==> !Starved(Plus(server, key), start, stop, limit, n))
    && (key in m ==> m[key] == Take(Between(Plus(server, key), start, stop), limit))
  }

  /** Scan the first n elements of one key; None means go back for more. */
  method ReadKey(z: ZSet, start: Cursor, stop: Cursor, limit: nat, n: nat) returns (answer: Option<seq<Entry>>)
    ensures answer.None? <==> Starved(z, start, stop, limit, n)
    ensures answer.Some? ==> answer.value == Take(Between(z, start, stop), limit)
  {
    var collected, validated, hitStop := Scan(RevRangeByScore(z, start.score, n), start, stop);
    ScanDecides(z, start, stop, limit, n, collected, validated, hitStop);
    var haveEnoughElements := |validated| >= limit;
    var exhaustedElements := collected < n;
    if haveEnoughElements || exhaustedElements || hitStop {
      if |validated| > limit {
        validated := validated[..limit];
      }
      return Some(validated);
    }
    return None;
  }

  /** One attempt: select n elements for every given key and keep the usable scans. */
  method SelectOnce(server: map<Key, ZSet>, keys: seq<Key>, start: Cursor, stop: Cursor, limit: nat, n: nat)
    returns (m: map<Key, seq<Entry>>)
    ensures forall key | key in keys :: Answers(server, key, start, stop, limit, n, m)
  {
    hide Starved, Between, Take;
    m := map[];
    for i := 0 to |keys|
      invariant forall key | key in m :: key in keys[..i]
      invariant forall key | key in keys[..i] :: Answers(server, key, start, stop, limit, n, m)
    {
      var key := keys[i];
      assert keys[..i + 1] == keys[..i] + [key];
      var answer := ReadKey(Plus(server, key), start, stop, limit, n);
      if answer.Some? {
        m := m[key := answer.value];
      }
    }
    assert keys[..|keys|] == keys;
  }

  /** The key was starved by each of the first attempts. */
  ghost predicate Unread(server: map<Key, ZSet>, key: Key, start: Cursor, stop: Cursor, limit: nat, attempts: nat) {
    forall a | 0 <= a < attempts :: Starved(Plus(server, key), start, stop, limit, SelectLimit(limit, a))
  }

  /** The limits only grow, so a key starved by the last attempt was starved by every one. */
  lemma {:induction false} StarvedEarlier(z: ZSet, start: Cursor, stop: Cursor, limit: nat, a: nat, last: nat)
    requires a <= last && Starved(z, start, stop, limit, SelectLimit(limit, last))
    ensures Starved(z, start, stop, limit, SelectLimit(limit, a))
    decreases last - a
  {
    if a < last {
      assert SelectLimit(limit, last - 1) <= SelectLimit(limit, last);
      StarvedEarlier(z, start, stop, limit, a, last - 1);
    }
  }

  lemma LastAttemptDecides(server: map<Key, ZSet>, key: Key, start: Cursor, stop: Cursor, limit: nat, attempts: nat)
    requires 0 < attempts <= MAX_ATTEMPTS
    ensures !Unread(server, key, start, stop, limit, attempts)
      ==> !Starved(Plus(server, key), start, stop, limit, SelectLimit(limit, MAX_ATTEMPTS - 1))
  {
    if Starved(Plus(server, key), start, stop, limit, SelectLimit(limit, MAX_ATTEMPTS - 1)) {
      forall a | 0 <= a < attempts ensures Starved(Plus(server, key), start, stop, limit, SelectLimit(limit, a)) {
        StarvedEarlier(Plus(server, key), start, stop, limit, a, MAX_ATTEMPTS - 1);
      }
    }
  }

  /** The key is done: an earlier attempt was not starved, and its answer is recorded. */
  ghost predicate Done(server: map<Key, ZSet>, key: Key, start: Cursor, stop: Cursor, limit: nat,
                       attempts: nat, results: map<Key, seq<Entry>>) {
    && key in results
    && !Unread(server, key, start, stop, limit, attempts)
    && results[key] == Take(Between(Plus(server, key), start, stop), limit)
  }

  /** Record the answered keys and list the others for another attempt. */
  method KeepAnswers(keysToSelect: seq<Key>, m: map<Key, seq<Entry>>, results: map<Key, seq<Entry>>)
    returns (retryKeys: seq<Key>, results': map<Key, seq<Entry>>)
    ensures forall key :: key in retryKeys <==> key in keysToSelect && key !in m
    ensures forall key :: key in results' <==> key in results || (key in keysToSelect && key in m)
    ensures forall key | key in results' ::
      results'[key] == if key in keysToSelect && key in m then m[key] else results[key]
  {
    retryKeys, results' := [], results;
    for i := 0 to |keysToSelect|
      invariant forall key :: key in retryKeys <==> key in keysToSelect[..i] && key !in m
      invariant forall key :: key in results' <==> key in results || (key in keysToSelect[..i] && key in m)
      invariant forall key | key in results' ::
        results'[key] == if key in keysToSelect[..i] && key in m then m[key] else results[key]
    {
      var key := keysToSelect[i];
      assert keysToSelect[..i + 1] == keysToSelect[..i] + [key];
      if key in m {
        results' := results'[key := m[key]]; // use it
      } else {
        retryKeys := retryKeys + [key]; // try again
      }
    }
    assert keysToSelect[..|keysToSelect|] == keysToSelect;
  }

  /**
   * A read fails exactly when some key is starved by the fourth selection, and a successful read
   * returns, for each key, the first limit elements strictly between the cursors.
   */
  method PipelineRangeByScore(server: map<Key, ZSet>, keys: seq<Key>, start: Cursor, stop: Cursor, limit: int)
    returns (r: Result)
    ensures r.NegativeLimit? <==> limit < 0
    ensures limit >= 0 ==> (r.Ok? <==> forall key | key in keys ::
      !Starved(Plus(server, key), start, stop, limit, SelectLimit(limit, MAX_ATTEMPTS - 1)))
    ensures r.Ok? ==> r.elements.Keys == (set key | key in keys)
    ensures r.Ok? ==> forall key | key in keys ::
      r.elements[key] == Take(Between(Plus(server, key), start, stop), limit)
    ensures r.Ok? ==> forall key | key in keys ::
      FirstOfRange(r.elements[key], Plus(server, key), start, stop, limit)
  {
    if limit < 0 {
      return NegativeLimit;
    }
    var keysToSelect, selectLimit: nat, results: map<Key, seq<Entry>> := keys, limit, map[];
    var attempt := 0;
    while |keysToSelect| > 0 && attempt < MAX_ATTEMPTS
      invariant attempt <= MAX_ATTEMPTS && selectLimit == SelectLimit(limit, attempt)
      invariant forall key | key in keysToSelect ::
        key in keys && key !in results && Unread(server, key, start, stop, limit, attempt)
      invariant forall key | key in results :: key in keys
      invariant forall key | key in keys && key !in keysToSelect ::
        Done(server, key, start, stop, limit, attempt, results)
      decreases MAX_ATTEMPTS - attempt
    {
      var m := SelectOnce(server, keysToSelect, start, stop, limit, selectLimit);
      var retryKeys;
      retryKeys, results := KeepAnswers(keysToSelect, m, results);
      forall key | key in keys && key !in retryKeys
        ensures Done(server, key, start, stop, limit, attempt + 1, results)
      {
        if key in keysToSelect {
          assert Answers(server, key, start, stop, limit, selectLimit, m);
        } else {
          assert Done(server, key, start, stop, limit, attempt, results);
        }
      }
      forall key | key in retryKeys ensures Unread(server, key, start, stop, limit, attempt + 1) {
        assert Answers(server, key, start, stop, limit, selectLimit, m);
      }
      keysToSelect := retryKeys;
      selectLimit := NextLimit(selectLimit);
      attempt := attempt + 1;
    }
    if |keysToSelect| > 0 {
      assert Unread(server, keysToSelect[0], start, stop, limit, MAX_ATTEMPTS);
      return NotEnough(|keysToSelect|);
    }
    forall key | key in keys
      ensures !Starved(Plus(server, key), start, stop, limit, SelectLimit(limit, MAX_ATTEMPTS - 1))
    {
      assert Done(server, key, start, stop, limit, attempt, results);
      LastAttemptDecides(server, key, start, stop, limit, attempt);
    }
    forall key | key in keys
      ensures FirstOfRange(results[key], Plus(server, key), start, stop, limit)
    {
      assert Done(server, key, start, stop, limit, attempt, results);
      TakeIsFirst(Plus(server, key), start, stop, limit);
    }
    return Ok(results);
  }
}
