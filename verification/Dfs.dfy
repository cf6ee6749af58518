/**
  The exhaustive generator of interleavings: a depth-first search over the orders of a list of events that
  prunes a prefix it has already visited, prefixes being compared as comma-separated text.
  */
module Dfs {

  type Event = string

  predicate CommaFree(e: Event) {
    ',' !in e
  }

  predicate AllCommaFree(events: seq<Event>) {
    forall i :: 0 <= i < |events| ==> CommaFree(events[i])
  }

  /** `strings.Join(path, ",")` */
  function Join(path: seq<Event>): string {
    if path == [] then ""
    else if |path| == 1 then path[0]
    else path[0] + "," + Join(path[1..])
  }

  lemma NotShorter(x: string, y: string, s: string, t: string)
    requires ',' !in y && (s == [] || s[0] == ',')
    requires x + s == y + t
    ensures |x| >= |y|
  {
    var next := if s == [] then ',' else (x + s)[|x|];
    assert next == ',';
  }

  lemma FirstComma(x: string, y: string, s: string, t: string)
    requires ',' !in x && ',' !in y
    requires s == [] || s[0] == ','
    requires t == [] || t[0] == ','
    requires x + s == y + t
    ensures x == y && s == t
  {
    NotShorter(x, y, s, t);
    NotShorter(y, x, t, s);
    assert (x + s)[..|x|] == x && (y + t)[..|y|] == y;
    assert (x + s)[|x|..] == s && (y + t)[|y|..] == t;
  }

  function Tail(path: seq<Event>): string
    requires path != []
  {
    if |path| == 1 then "" else "," + Join(path[1..])
  }

  lemma AfterComma(x: string, s: string)
    ensures x + "," + s == x + ("," + s) && ("," + s)[0] == ',' && ("," + s)[1..] == s
  {
  }

  lemma JoinParts(p: seq<Event>)
    requires p != []
    ensures Join(p) == p[0] + Tail(p)
    ensures |p| == 1 <==> Tail(p) == ""
    ensures |p| > 1 ==> Tail(p)[0] == ',' && Tail(p)[1..] == Join(p[1..])
  {
    if |p| > 1 {
      AfterComma(p[0], Join(p[1..]));
    }
  }

  /** The text of a non-empty path of comma-free events determines the path. */
  lemma {:induction false} JoinInjective(p: seq<Event>, q: seq<Event>)
    requires p != [] && q != [] && AllCommaFree(p) && AllCommaFree(q)
    requires Join(p) == Join(q)
    ensures p == q
  {
    hide Join, Tail;
    JoinParts(p);
    JoinParts(q);
    FirstComma(p[0], q[0], Tail(p), Tail(q));
    if |p| > 1 {
      JoinInjective(p[1..], q[1..]);
    }
    assert p == [p[0]] + p[1..] && q == [q[0]] + q[1..];
  }

  // ---------- the search ----------

  function Removed(events: seq<Event>, i: nat): seq<Event>
    requires i < |events|
  {
    events[..i] + events[i + 1..]
  }

  /** What the search changes: the texts of the visited prefixes, and the printed lines. */
  datatype Trail = Trail(visited: set<string>, output: seq<string>)

  const START := Trail({}, [])

  /** The trail after everything that goes on from `path` with the events `rest` was searched. */
  function Explored(path: seq<Event>, rest: seq<Event>, s: Trail): Trail
    decreases |rest|, |rest| + 1
  {
    if rest == [] then s.(output := s.output + [Join(path)]) else ExploredFrom(path, rest, 0, s)
  }

  /** The same from the remaining event `i` on. */
  function ExploredFrom(path: seq<Event>, rest: seq<Event>, i: nat, s: Trail): Trail
    requires i <= |rest|
    decreases |rest|, |rest| - i
  {
    if i == |rest| then s
    else
      var text := Join(path + [rest[i]]);
      var s' := if text in s.visited then s
                else Explored(path + [rest[i]], Removed(rest, i), s.(visited := s.visited + {text}));
      ExploredFrom(path, rest, i + 1, s')
  }

  class Generator {
    var visited: set<string>
    var output: seq<string>

    constructor ()
      ensures Contents() == START
    {
      visited, output := {}, [];
    }

    ghost function Contents(): Trail
      reads this
    {
      Trail(visited, output)
    }

    method Search(path: seq<Event>, rest: seq<Event>)
      modifies this
      ensures Contents() == Explored(path, rest, old(Contents()))
      decreases |rest|
    {
      if |rest| == 0 {
        output := output + [Join(path)];
        return;
      }
      var i := 0;
      while i < |rest|
        invariant 0 <= i <= |rest|
        invariant ExploredFrom(path, rest, i, Contents()) == Explored(path, rest, old(Contents()))
      {
        var newPath := path + [rest[i]];
        var newRest := Removed(rest, i);
        var text := Join(newPath);
        if text !in visited {
          visited := visited + {text};
          Search(newPath, newRest);
        }
        i := i + 1;
      }
    }
  }

  /** The line is the text of one of the orders of the events. */
  ghost predicate IsOrderOf(line: string, events: seq<Event>) {
    exists order :: multiset(order) == multiset(events) && line == Join(order)
  }

  /** A prefix of some order of the events. */
  predicate IsPrefix(p: seq<Event>, events: seq<Event>) {
    p != [] && multiset(p) <= multiset(events)
  }

  /** Prefixes of orders that have the same text consist of the same events. */
  ghost predicate TextsTellEvents(events: seq<Event>) {
    forall p, q :: IsPrefix(p, events) && IsPrefix(q, events) && Join(p) == Join(q) ==> multiset(p) == multiset(q)
  }

  /**
    A search from the empty path prints lines of orders of the events only, and no line twice. It prints
    the lines of all of them, whenever the text of a prefix tells which events it consists of.
    */
  method GenerateAll(events: seq<Event>) returns (lines: seq<string>)
    ensures lines == Explored([], events, START).output
    ensures Distinct(lines)
    ensures forall line :: line in lines ==> IsOrderOf(line, events)
    ensures TextsTellEvents(events) ==> forall line :: IsOrderOf(line, events) ==> line in lines
  {
    var g := new Generator();
    g.Search([], events);
    lines := g.output;
    LinesOnce(events);
    LinesAreOrders(events);
    if TextsTellEvents(events) {
      AllOrdersPrinted(events);
    }
  }

  // ---------- every line is an order ----------

  predicate Distinct<T(==)>(xs: seq<T>) {
    forall i, j :: 0 <= i < j < |xs| ==> xs[i] != xs[j]
  }

  /** `order` goes on from `path` with the events `rest` in some order. */
  predicate Completes(order: seq<Event>, path: seq<Event>, rest: seq<Event>) {
    path <= order && multiset(order[|path|..]) == multiset(rest)
  }

  lemma RemovedMultiset(rest: seq<Event>, i: nat)
    requires i < |rest|
    ensures multiset(rest) == multiset(Removed(rest, i)) + multiset{rest[i]}
  {
    assert rest == rest[..i] + [rest[i]] + rest[i + 1..];
  }

  lemma CompletesNext(order: seq<Event>, path: seq<Event>, rest: seq<Event>, i: nat)
    requires i < |rest| && Completes(order, path + [rest[i]], Removed(rest, i))
    ensures Completes(order, path, rest) && |order| > |path| && order[|path|] == rest[i]
  {
    var next := path + [rest[i]];
    RemovedMultiset(rest, i);
    assert order[|path|] == next[|path|] && order[..|path|] == next[..|path|];
    assert order[|path|..] == [rest[i]] + order[|next|..];
  }

  /** The line was there before, or is that of an order going on from `path` with `rest`. */
  ghost predicate FromThere(line: string, before: seq<string>, path: seq<Event>, rest: seq<Event>) {
    line in before || exists order :: Completes(order, path, rest) && line == Join(order)
  }

  lemma {:induction false} ExploredLines(path: seq<Event>, rest: seq<Event>, s: Trail, line: string)
    requires line in Explored(path, rest, s).output
    ensures FromThere(line, s.output, path, rest)
    decreases |rest|, |rest| + 1
  {
    hide Join;
    if rest == [] {
      assert Completes(path, path, rest);
    } else {
      ExploredFromLines(path, rest, 0, s, line);
    }
  }

  lemma {:induction false} ExploredFromLines(path: seq<Event>, rest: seq<Event>, i: nat, s: Trail, line: string)
    requires i <= |rest| && line in ExploredFrom(path, rest, i, s).output
    ensures FromThere(line, s.output, path, rest)
    decreases |rest|, |rest| - i
  {
    hide Join;
    if i < |rest| {
      var next, left := path + [rest[i]], Removed(rest, i);
      var s' := if Join(next) in s.visited then s
                else Explored(next, left, s.(visited := s.visited + {Join(next)}));
      ExploredFromLines(path, rest, i + 1, s', line);
      if Join(next) !in s.visited && line in s'.output {
        ExploredLines(next, left, s.(visited := s.visited + {Join(next)}), line);
        LineNext(line, s.output, path, rest, i);
      }
    }
  }

  lemma LineNext(line: string, before: seq<string>, path: seq<Event>, rest: seq<Event>, i: nat)
    requires i < |rest| && FromThere(line, before, path + [rest[i]], Removed(rest, i))
    ensures FromThere(line, before, path, rest)
  {
    hide Join, Completes;
    if line !in before {
      var order :| Completes(order, path + [rest[i]], Removed(rest, i)) && line == Join(order);
      CompletesNext(order, path, rest, i);
    }
  }

  lemma LinesAreOrders(events: seq<Event>)
    ensures forall line :: line in Explored([], events, START).output ==> IsOrderOf(line, events)
  {
    hide Join, Explored;
    forall line | line in Explored([], events, START).output
      ensures IsOrderOf(line, events)
    {
      ExploredLines([], events, START, line);
      var order :| Completes(order, [], events) && line == Join(order);
      assert order[0..] == order;
    }
  }

  // ---------- no line twice ----------

  /** No line was printed twice, and the printed ones have been visited. */
  predicate Once(s: Trail) {
    Distinct(s.output) && forall line :: line in s.output ==> line in s.visited
  }

  lemma {:induction false} ExploredOnce(path: seq<Event>, rest: seq<Event>, s: Trail)
    requires Once(s) && Join(path) in s.visited && Join(path) !in s.output
    ensures Once(Explored(path, rest, s))
    decreases |rest|, |rest| + 1
  {
    hide Join;
    if rest != [] {
      ExploredFromOnce(path, rest, 0, s);
    }
  }

  lemma {:induction false} ExploredFromOnce(path: seq<Event>, rest: seq<Event>, i: nat, s: Trail)
    requires i <= |rest| && Once(s)
    ensures Once(ExploredFrom(path, rest, i, s))
    decreases |rest|, |rest| - i
  {
    hide Join;
    if i < |rest| {
      var next, left := path + [rest[i]], Removed(rest, i);
      var down := s.(visited := s.visited + {Join(next)});
      if Join(next) !in s.visited {
        ExploredOnce(next, left, down);
      }
      var s' := if Join(next) in s.visited then s else Explored(next, left, down);
      hide Explored, Distinct;
      ExploredFromOnce(path, rest, i + 1, s');
    }
  }

  lemma LinesOnce(events: seq<Event>)
    ensures Distinct(Explored([], events, START).output)
  {
    if events != [] {
      ExploredFromOnce([], events, 0, START);
    }
  }

  // ---------- every order is printed ----------

  /** The lines of all orders that go on from `q` have been printed. */
  ghost predicate Covered(q: seq<Event>, events: seq<Event>, output: seq<string>) {
    forall order :: q <= order && multiset(order) == multiset(events) ==> Join(order) in output
  }

  /** The text is that of a prefix of `path`: the search is below it. */
  predicate OnStack(text: string, path: seq<Event>) {
    exists k :: 1 <= k <= |path| && text == Join(path[..k])
  }

  /** What was visited has been searched through, or is being searched. */
  ghost predicate Kept(events: seq<Event>, path: seq<Event>, s: Trail) {
    forall q :: IsPrefix(q, events) && Join(q) in s.visited ==> Covered(q, events, s.output) || OnStack(Join(q), path)
  }

  lemma {:induction false} JoinAppend(p: seq<Event>, r: seq<Event>)
    requires p != []
    ensures Join(p + r) == Join(p) + if r == [] then "" else "," + Join(r)
  {
    if r == [] {
      assert p + r == p;
    } else if |p| == 1 {
      assert (p + r)[1..] == r;
    } else {
      assert (p + r)[1..] == p[1..] + r;
      JoinAppend(p[1..], r);
      assert p[0] + "," + (Join(p[1..]) + ("," + Join(r))) == p[0] + "," + Join(p[1..]) + ("," + Join(r));
    }
  }

  lemma NotOnStack(path: seq<Event>, e: Event)
    ensures !OnStack(Join(path + [e]), path)
  {
    hide Join;
    forall k | 1 <= k <= |path|
      ensures Join(path + [e]) != Join(path[..k])
    {
      JoinAppend(path[..k], path[k..]);
      JoinAppend(path, [e]);
      assert path[..k] + path[k..] == path;
      assert |Join(path + [e])| > |Join(path)| >= |Join(path[..k])|;
    }
  }

  lemma StackGrows(text: string, path: seq<Event>, e: Event)
    ensures OnStack(text, path + [e]) <==> OnStack(text, path) || text == Join(path + [e])
  {
    hide Join;
    var next := path + [e];
    assert next[..|next|] == next;
    assert forall k :: 1 <= k <= |path| ==> next[..k] == path[..k];
  }

  /** Where texts tell events, what one prefix has printed is printed for every prefix of the same text. */
  lemma CoveredSame(p: seq<Event>, q: seq<Event>, events: seq<Event>, output: seq<string>)
    requires p != [] && q != [] && multiset(p) == multiset(q)
    requires Join(p) == Join(q) && Covered(p, events, output)
    ensures Covered(q, events, output)
  {
    hide Join;
    forall order | q <= order && multiset(order) == multiset(events)
      ensures Join(order) in output
    {
      var r := order[|q|..];
      assert order == q + r;
      JoinAppend(p, r);
      JoinAppend(q, r);
      assert p <= p + r && multiset(p + r) == multiset(q + r);
    }
  }

  lemma SameEvents(p: seq<Event>, q: seq<Event>, events: seq<Event>)
    requires TextsTellEvents(events) && IsPrefix(p, events) && IsPrefix(q, events) && Join(p) == Join(q)
    ensures p != [] && q != [] && multiset(p) == multiset(q)
  {
  }

  lemma CoveredMore(q: seq<Event>, events: seq<Event>, output: seq<string>, more: seq<string>)
    requires Covered(q, events, output) && forall line :: line in output ==> line in more
    ensures Covered(q, events, more)
  {
  }

  predicate Grown(s: Trail, s': Trail) {
    forall line :: line in s.output ==> line in s'.output
  }

  lemma PathIsPrefix(path: seq<Event>, rest: seq<Event>, i: nat, events: seq<Event>)
    requires i < |rest| && multiset(path) + multiset(rest) == multiset(events)
    ensures IsPrefix(path + [rest[i]], events)
    ensures multiset(path + [rest[i]]) + multiset(Removed(rest, i)) == multiset(events)
  {
    RemovedMultiset(rest, i);
  }

  lemma GoesDown(events: seq<Event>, path: seq<Event>, e: Event, s: Trail)
    requires Kept(events, path, s)
    ensures Kept(events, path + [e], s.(visited := s.visited + {Join(path + [e])}))
  {
    hide Join, Covered, OnStack;
    forall text
      ensures OnStack(text, path + [e]) <==> OnStack(text, path) || text == Join(path + [e])
    {
      StackGrows(text, path, e);
    }
  }

  lemma ComesUp(events: seq<Event>, path: seq<Event>, e: Event, s: Trail)
    requires TextsTellEvents(events) && IsPrefix(path + [e], events)
    requires Kept(events, path + [e], s) && Covered(path + [e], events, s.output)
    ensures Kept(events, path, s)
  {
    hide Join, Covered, OnStack, TextsTellEvents, IsPrefix;
    forall q | IsPrefix(q, events) && Join(q) in s.visited
      ensures Covered(q, events, s.output) || OnStack(Join(q), path)
    {
      StackGrows(Join(q), path, e);
      if Join(q) == Join(path + [e]) {
        SameEvents(path + [e], q, events);
        CoveredSame(path + [e], q, events, s.output);
      }
    }
  }

  /** The first `i` of the remaining events have been gone on with. */
  ghost predicate CoveredUpTo(path: seq<Event>, rest: seq<Event>, i: nat, events: seq<Event>, output: seq<string>)
    requires i <= |rest|
  {
    forall j :: 0 <= j < i ==> Covered(path + [rest[j]], events, output)
  }

  lemma CoveredAll(path: seq<Event>, rest: seq<Event>, events: seq<Event>, output: seq<string>)
    requires multiset(path) + multiset(rest) == multiset(events)
    requires if rest == [] then Join(path) in output else CoveredUpTo(path, rest, |rest|, events, output)
    ensures Covered(path, events, output)
  {
    hide Join;
    forall order | path <= order && multiset(order) == multiset(events)
      ensures Join(order) in output
    {
      NextOf(order, path, rest, events);
    }
  }

  /** An order that goes on from `path` is `path`, or it goes on with one of the remaining events. */
  lemma NextOf(order: seq<Event>, path: seq<Event>, rest: seq<Event>, events: seq<Event>)
    requires path <= order && multiset(order) == multiset(events) == multiset(path) + multiset(rest)
    ensures if rest == [] then order == path else exists j :: 0 <= j < |rest| && path + [rest[j]] <= order
  {
    var r := order[|path|..];
    assert order == path + r;
    SameRest(multiset(path), multiset(r), multiset(rest));
    assert |multiset(r)| == |r| && |multiset(rest)| == |rest|;
    if rest != [] {
      assert r[0] in multiset(r);
      assert r[0] in multiset(rest);
      var j :| 0 <= j < |rest| && rest[j] == r[0];
      assert order[..|path| + 1] == path + [rest[j]];
    }
  }

  lemma SameRest(a: multiset<Event>, b: multiset<Event>, c: multiset<Event>)
    requires a + b == a + c
    ensures b == c
  {
    assert b == a + b - a && c == a + c - a;
  }

  lemma {:induction false} ExploredCovers(events: seq<Event>, path: seq<Event>, rest: seq<Event>, s: Trail)
    requires TextsTellEvents(events) && multiset(path) + multiset(rest) == multiset(events)
    requires Kept(events, path, s)
    ensures Kept(events, path, Explored(path, rest, s)) && Grown(s, Explored(path, rest, s))
    ensures Covered(path, events, Explored(path, rest, s).output)
    decreases |rest|, |rest| + 1
  {
    hide Join, TextsTellEvents, OnStack;
    if rest == [] {
      var s' := Explored(path, rest, s);
      assert s'.output == s.output + [Join(path)];
      CoveredAll(path, rest, events, s'.output);
      hide Explored;
      KeptMore(events, path, s, s');
    } else {
      hide Kept, Covered;
      assert CoveredUpTo(path, rest, 0, events, s.output);
      ExploredFromCovers(events, path, rest, 0, s);
      CoveredAll(path, rest, events, Explored(path, rest, s).output);
    }
  }

  lemma KeptMore(events: seq<Event>, path: seq<Event>, s: Trail, s': Trail)
    requires Kept(events, path, s) && Grown(s, s') && s'.visited == s.visited
    ensures Kept(events, path, s')
  {
    hide Join, OnStack;
  }

  lemma {:induction false} ExploredFromCovers(events: seq<Event>, path: seq<Event>, rest: seq<Event>, i: nat, s: Trail)
    requires TextsTellEvents(events) && multiset(path) + multiset(rest) == multiset(events) && i <= |rest|
    requires Kept(events, path, s) && CoveredUpTo(path, rest, i, events, s.output)
    ensures Kept(events, path, ExploredFrom(path, rest, i, s)) && Grown(s, ExploredFrom(path, rest, i, s))
    ensures CoveredUpTo(path, rest, |rest|, events, ExploredFrom(path, rest, i, s).output)
    decreases |rest|, |rest| - i
  {
    hide Join, TextsTellEvents, OnStack, IsPrefix, Kept, Covered, Explored;
    if i < |rest| {
      var next, left := path + [rest[i]], Removed(rest, i);
      var down := s.(visited := s.visited + {Join(next)});
      var s' := if Join(next) in s.visited then s else Explored(next, left, down);
      PathIsPrefix(path, rest, i, events);
      if Join(next) in s.visited {
        NotOnStack(path, rest[i]);
        KeptCovers(events, path, s, next);
      } else {
        GoesDown(events, path, rest[i], s);
        ExploredCovers(events, next, left, down);
        ComesUp(events, path, rest[i], s');
      }
      CoveredStep(path, rest, i, events, s.output, s'.output);
      ExploredFromCovers(events, path, rest, i + 1, s');
    }
  }

  lemma KeptCovers(events: seq<Event>, path: seq<Event>, s: Trail, q: seq<Event>)
    requires Kept(events, path, s) && IsPrefix(q, events) && Join(q) in s.visited && !OnStack(Join(q), path)
    ensures Covered(q, events, s.output)
  {
  }

  lemma CoveredStep(path: seq<Event>, rest: seq<Event>, i: nat, events: seq<Event>, output: seq<string>, more: seq<string>)
    requires i < |rest| && CoveredUpTo(path, rest, i, events, output) && Covered(path + [rest[i]], events, more)
    requires forall line :: line in output ==> line in more
    ensures CoveredUpTo(path, rest, i + 1, events, more)
  {
    hide Covered;
    forall j | 0 <= j < i
      ensures Covered(path + [rest[j]], events, more)
    {
      CoveredMore(path + [rest[j]], events, output, more);
    }
  }

  lemma AllOrdersPrinted(events: seq<Event>)
    requires TextsTellEvents(events)
    ensures forall line :: IsOrderOf(line, events) ==> line in Explored([], events, START).output
  {
    hide Join, Explored, TextsTellEvents;
    ExploredCovers(events, [], events, START);
    forall line | IsOrderOf(line, events)
      ensures line in Explored([], events, START).output
    {
      var order :| multiset(order) == multiset(events) && line == Join(order);
      assert [] <= order;
    }
  }

  // ---------- commas ----------

  /** Without commas in the events a text even tells the prefix, so all orders are printed, each on a line of its own. */
  lemma CommaFreeTells(events: seq<Event>)
    requires AllCommaFree(events)
    ensures TextsTellEvents(events)
    ensures forall p, q :: IsPrefix(p, events) && IsPrefix(q, events) && Join(p) == Join(q) ==> p == q
  {
    hide Join;
    forall p, q | IsPrefix(p, events) && IsPrefix(q, events) && Join(p) == Join(q)
      ensures p == q
    {
      PartCommaFree(p, events);
      PartCommaFree(q, events);
      JoinInjective(p, q);
    }
  }

  lemma PartCommaFree(p: seq<Event>, events: seq<Event>)
    requires multiset(p) <= multiset(events) && AllCommaFree(events)
    ensures AllCommaFree(p)
  {
    forall i | 0 <= i < |p|
      ensures CommaFree(p[i])
    {
      assert p[i] in multiset(p);
      assert p[i] in multiset(events);
    }
  }

  lemma {:induction false} StaysVisited(path: seq<Event>, rest: seq<Event>, s: Trail)
    ensures s.visited <= Explored(path, rest, s).visited
    decreases |rest|, |rest| + 1
  {
    if rest != [] {
      StaysVisitedFrom(path, rest, 0, s);
    }
  }

  lemma {:induction false} StaysVisitedFrom(path: seq<Event>, rest: seq<Event>, i: nat, s: Trail)
    requires i <= |rest|
    ensures s.visited <= ExploredFrom(path, rest, i, s).visited
    ensures i < |rest| ==> Join(path + [rest[i]]) in ExploredFrom(path, rest, i, s).visited
    decreases |rest|, |rest| - i
  {
    hide Join;
    if i < |rest| {
      var next, left := path + [rest[i]], Removed(rest, i);
      var down := s.(visited := s.visited + {Join(next)});
      StaysVisited(next, left, down);
      StaysVisitedFrom(path, rest, i + 1, if Join(next) in s.visited then s else Explored(next, left, down));
    }
  }

  lemma OrdersOfTwo(order: seq<Event>, first: Event, x: Event, y: Event)
    requires Completes(order, [first], [x, y])
    ensures order == [first, x, y] || order == [first, y, x]
  {
    var r := order[1..];
    assert |multiset(r)| == |r| && |multiset([x, y])| == 2;
    assert r == [r[0], r[1]];
    PairOf(r[0], r[1], x, y);
    assert order == [first] + r;
  }

  lemma PairOf(u: Event, v: Event, x: Event, y: Event)
    requires multiset{u, v} == multiset{x, y}
    ensures [u, v] == [x, y] || [u, v] == [y, x]
  {
    assert u in multiset{x, y};
    if u == x {
      SameRest(multiset{x}, multiset{v}, multiset{y});
      assert v in multiset{y};
    } else {
      SameRest(multiset{y}, multiset{v}, multiset{x});
      assert v in multiset{x};
    }
  }

  /** The text of three events of which one is the text of two. */
  lemma FourParts(a: Event, b: Event, x: Event, y: Event)
    ensures var c := a + "," + b;
            && Join([a, b]) == Join([c]) == c
            && Join([x, y, c]) == Join([x, y, a, b])
            && Join([x, c, y]) == Join([x, a, b, y])
            && Join([c, x, y]) == Join([a, b, x, y])
  {
    hide Join;
    var c := a + "," + b;
    TextOfTwo(a, b);
    SameText([x, y], [c], [a, b], []);
    SameText([x], [c], [a, b], [y]);
    SameText([], [c], [a, b], [x, y]);
    assert [x, y] + [c] + [] == [x, y, c] && [x, y] + [a, b] + [] == [x, y, a, b];
    assert [x] + [c] + [y] == [x, c, y] && [x] + [a, b] + [y] == [x, a, b, y];
    assert [] + [c] + [x, y] == [c, x, y] && [] + [a, b] + [x, y] == [a, b, x, y];
  }

  lemma TextOfTwo(a: Event, b: Event)
    ensures Join([a, b]) == Join([a + "," + b]) == a + "," + b
  {
    assert [a, b][1..] == [b];
  }

  lemma SameText(before: seq<Event>, p: seq<Event>, q: seq<Event>, after: seq<Event>)
    requires p != [] && q != [] && Join(p) == Join(q)
    ensures Join(before + p + after) == Join(before + q + after)
  {
    hide Join;
    JoinAppend(p, after);
    JoinAppend(q, after);
    if before == [] {
      assert before + p + after == p + after && before + q + after == q + after;
    } else {
      JoinAppend(before, p + after);
      JoinAppend(before, q + after);
      assert before + p + after == before + (p + after) && before + q + after == before + (q + after);
    }
  }

  /** No order of a, b and c = a "," b that starts with a or b has the text of c, b, a. */
  lemma OnlyItsOwn(a: Event, b: Event, order: seq<Event>)
    requires CommaFree(a) && CommaFree(b) && a != b
    requires Completes(order, [a], [b, a + "," + b]) || Completes(order, [b], [a, a + "," + b])
    ensures Join(order) != Join([a + "," + b, b, a])
  {
    hide Join, CommaFree;
    var c := a + "," + b;
    if Completes(order, [a], [b, c]) {
      OrdersOfTwo(order, a, b, c);
    } else {
      OrdersOfTwo(order, b, a, c);
    }
    hide *;
    FourParts(a, b, a, b);
    FourParts(a, b, b, a);
    PartsDiffer(a, b, a, b, a, b);
    PartsDiffer(a, b, a, a, b, b);
    PartsDiffer(a, b, b, a, a, b);
    PartsDiffer(a, b, b, a, b, a);
  }

  lemma PartsDiffer(a: Event, b: Event, w: Event, x: Event, y: Event, z: Event)
    requires CommaFree(a) && CommaFree(b) && CommaFree(w) && CommaFree(x) && CommaFree(y) && CommaFree(z)
    requires x != b || y != b
    ensures Join([w, x, y, z]) != Join([a, b, b, a])
  {
    hide Join;
    var parts, own := [w, x, y, z], [a, b, b, a];
    assert parts[1] != own[1] || parts[2] != own[2];
    if Join(parts) == Join(own) {
      JoinInjective(parts, own);
    }
  }

  lemma SeenAsTwo(a: Event, b: Event, s: Trail)
    ensures a + "," + b in Explored([a], [b, a + "," + b], s).visited
  {
    var rest := [b, a + "," + b];
    TextOfTwo(a, b);
    hide Join;
    assert [a] + [rest[0]] == [a, b];
    StaysVisitedFrom([a], rest, 0, s);
  }

  lemma FirstFrom(events: seq<Event>)
    requires events != []
    ensures Explored([], events, START) == ExploredFrom([], events, 0, START)
  {
  }

  /** The search below a, then below b; c = a "," b has been visited by then as a followed by b. */
  lemma ThirdPruned(a: Event, b: Event)
    ensures var events := [a, b, a + "," + b];
            var s1 := Explored([a], [b, a + "," + b], START.(visited := {Join([a])}));
            var s2 := if Join([b]) in s1.visited then s1
                      else Explored([b], [a, a + "," + b], s1.(visited := s1.visited + {Join([b])}));
            Explored([], events, START) == s2
  {
    var c := a + "," + b;
    var events := [a, b, c];
    var s0 := START.(visited := {Join([a])});
    var s1 := Explored([a], [b, c], s0);
    SeenAsTwo(a, b, s0);
    hide Join;
    var s2 := if Join([b]) in s1.visited then s1 else Explored([b], [a, c], s1.(visited := s1.visited + {Join([b])}));
    StaysVisited([b], [a, c], s1.(visited := s1.visited + {Join([b])}));
    TextOfTwo(a, b);
    hide Explored;
    assert Join([c]) in s2.visited;
    assert [] + [a] == [a] && [] + [b] == [b] && [] + [c] == [c];
    assert Removed(events, 0) == [b, c] && Removed(events, 1) == [a, c];
    assert START.visited + {Join([a])} == {Join([a])};
    assert ExploredFrom([], events, 3, s2) == s2;
    assert ExploredFrom([], events, 2, s2) == s2;
    assert ExploredFrom([], events, 1, s1) == s2;
    assert ExploredFrom([], events, 0, START) == s2;
    FirstFrom(events);
  }

  /**
    With a comma in an event an order can get lost: of the events a, b and c = a "," b the order c, b, a has
    a line of its own, and it is not printed, as the prefix c was visited as a followed by b.
    */
  lemma CommaLoses(a: Event, b: Event)
    requires CommaFree(a) && CommaFree(b) && a != b
    ensures var events := [a, b, a + "," + b];
            var line := Join([a + "," + b, b, a]);
            IsOrderOf(line, events) && line !in Explored([], events, START).output
  {
    hide Join, Explored, Completes;
    var c := a + "," + b;
    var line := Join([c, b, a]);
    assert multiset([c, b, a]) == multiset([a, b, c]);
    ThirdPruned(a, b);
    var s0 := START.(visited := {Join([a])});
    var s1 := Explored([a], [b, c], s0);
    var down := s1.(visited := s1.visited + {Join([b])});
    if line in Explored([], [a, b, c], START).output {
      if line !in s1.output {
        ExploredLines([b], [a, c], down, line);
        NotFromThere(a, b, [b], [a, c], s1.output);
      } else {
        ExploredLines([a], [b, c], s0, line);
        NotFromThere(a, b, [a], [b, c], []);
      }
    }
  }

  lemma NotFromThere(a: Event, b: Event, path: seq<Event>, rest: seq<Event>, before: seq<string>)
    requires CommaFree(a) && CommaFree(b) && a != b
    requires (path == [a] && rest == [b, a + "," + b]) || (path == [b] && rest == [a, a + "," + b])
    requires Join([a + "," + b, b, a]) !in before
    ensures !FromThere(Join([a + "," + b, b, a]), before, path, rest)
  {
    hide Join, Completes;
    forall order | Completes(order, path, rest)
      ensures Join(order) != Join([a + "," + b, b, a])
    {
      OnlyItsOwn(a, b, order);
    }
  }
}
