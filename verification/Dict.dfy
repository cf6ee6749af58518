/**
  The chained hash table: an array of buckets, each a linked list of entries, doubled and relinked in place
  when it is full. The ghost field `chains` lists the entries of each bucket, and `model` is the map the
  table stands for; the hash function is any function.
  */
module Dict {
  import opened Bytes

  type Key = ByteString
  /** A value is a pointer the table does not look into. */
  type Val = nat

  const INITIAL_SIZE: nat := 4

  class Entry {
    const key: Key
    var val: Val
    var next: Entry?

    constructor (key: Key, val: Val)
      ensures this.key == key && this.val == val
    {
      this.key, this.val, this.next := key, val, null;
    }
  }

  type Chain = seq<Entry>

  /** The entry at position `j`, or null beyond the end. */
  function At(c: Chain, j: nat): Entry? {
    if j < |c| then c[j] else null
  }

  function First(c: Chain): Entry? {
    At(c, 0)
  }

  /** The entries are linked in the order of the list. */
  ghost predicate Linked(c: Chain)
    reads c`next
  {
    forall j {:trigger c[j].next} :: 0 <= j < |c| ==> c[j].next == At(c, j + 1)
  }

  predicate DistinctKeys(c: Chain) {
    forall j, l :: 0 <= j < l < |c| ==> c[j].key != c[l].key
  }

  predicate AllAt(c: Chain, hash: Key -> nat, size: nat, i: nat)
    requires size > 0
  {
    forall j :: 0 <= j < |c| ==> hash(c[j].key) % size == i
  }

  ghost predicate BucketOk(head: Entry?, c: Chain, hash: Key -> nat, size: nat, i: nat)
    requires size > 0
    reads c`next
  {
    head == First(c) && Linked(c) && DistinctKeys(c) && AllAt(c, hash, size, i)
  }

  function Nodes(chains: seq<Chain>): set<Entry> {
    set i, j | 0 <= i < |chains| && 0 <= j < |chains[i]| :: chains[i][j]
  }

  ghost predicate TableOk(table: array<Entry?>, chains: seq<Chain>, hash: Key -> nat)
    reads table, Nodes(chains)`next
  {
    && |chains| == table.Length
    && forall i :: 0 <= i < |chains| ==> ChainIn(chains, i) && BucketOk(table[i], chains[i], hash, table.Length, i)
  }

  /** Tells the frame of a bucket from that of the table. */
  ghost predicate ChainIn(chains: seq<Chain>, i: nat)
    requires i < |chains|
  {
    forall e :: e in chains[i] ==> e in Nodes(chains)
  }

  predicate Has(chains: seq<Chain>, k: Key, hash: Key -> nat) {
    |chains| > 0 && exists j :: 0 <= j < |chains[hash(k) % |chains|]| && chains[hash(k) % |chains|][j].key == k
  }

  /** The entries are those of the map. */
  ghost predicate Holds(chains: seq<Chain>, model: map<Key, Val>, hash: Key -> nat)
    reads Nodes(chains)`val
  {
    && (forall e :: e in Nodes(chains) ==> e.key in model && model[e.key] == e.val)
    && (forall k :: k in model ==> Has(chains, k, hash))
  }

  ghost predicate IsPower(n: nat) {
    n == 1 || (n > 0 && n % 2 == 0 && IsPower(n / 2))
  }

  /** The least power of two that is at least `size` and four. */
  method NextPower(size: nat) returns (i: nat)
    ensures i >= size && i >= 4 && IsPower(i)
    ensures i > 4 ==> i < 2 * size
    ensures size >= 4 && IsPower(size) ==> i == size
  {
    hide IsPower;
    i := INITIAL_SIZE;
    PowerStart();
    while i < size
      invariant i >= 4 && IsPower(i) && (i > 4 ==> i < 2 * size)
      invariant size >= 4 && IsPower(size) ==> i <= size
      decreases size - i
    {
      if IsPower(size) {
        PowersApart(i, size);
      }
      PowerDouble(i);
      i := i * 2;
    }
  }

  lemma PowerStart()
    ensures IsPower(INITIAL_SIZE)
  {
    PowerDouble(1);
    PowerDouble(2);
  }

  lemma {:induction false} PowersApart(a: nat, b: nat)
    requires IsPower(a) && IsPower(b) && a < b
    ensures 2 * a <= b
  {
    if a > 1 {
      PowersApart(a / 2, b / 2);
    }
  }

  lemma PowerDouble(n: nat)
    requires IsPower(n)
    ensures IsPower(n * 2)
  {
  }

  /** Four buckets to begin with, and twice as many whenever there are as many entries as buckets. */
  function Grown(length: nat, used: nat): nat {
    if length == 0 then 4 else if used == length then 2 * length else length
  }

  class HashTable {
    var table: array<Entry?>
    var used: nat
    const hash: Key -> nat
    ghost var chains: seq<Chain>
    ghost var model: map<Key, Val>

    ghost predicate Valid()
      reads this, table, Nodes(chains)
    {
      && TableOk(table, chains, hash) && Holds(chains, model, hash)
      && used == |model| <= table.Length
      && (table.Length == 0 || (table.Length >= INITIAL_SIZE && IsPower(table.Length)))
    }

    constructor (hash: Key -> nat)
      ensures Valid() && model == map[] && this.hash == hash && fresh(table)
    {
      this.hash := hash;
      table := new Entry?[0];
      used, chains, model := 0, [], map[];
    }

    /** The entry of a key, or null. */
    method Find(key: Key) returns (he: Entry?)
      requires Valid()
      ensures he == null <==> key !in model
      ensures he != null ==> he in Nodes(chains) && he.key == key && he.val == model[key]
    {
      if table.Length == 0 {
        return null;
      }
      var h := hash(key) % table.Length;
      assert BucketOk(table[h], chains[h], hash, table.Length, h);
      he := table[h];
      ghost var p := 0;
      ghost var c := chains[h];
      while he != null
        invariant 0 <= p <= |c| && he == At(c, p)
        invariant forall j :: 0 <= j < p ==> c[j].key != key
        decreases |c| - p
      {
        assert he == c[p];
        if he.key == key {
          return;
        }
        he := he.next;
        p := p + 1;
      }
    }

    /** Moves every entry to a table of at least `size` buckets; refused if there are more entries than that. */
    method Expand(size: nat) returns (ok: bool)
      requires Valid()
      modifies this, Nodes(chains)
      ensures Valid() && model == old(model) && Nodes(chains) == old(Nodes(chains)) && used == old(used)
      ensures ok <==> old(used) <= size
      ensures ok ==> fresh(table) && table.Length >= size && (table.Length > 4 ==> table.Length < 2 * size)
      ensures ok && size >= 4 && IsPower(size) ==> table.Length == size
      ensures !ok ==> table == old(table)
    {
      hide TableOk, IsPower, Has;
      var realsize := NextPower(size);
      if used > size {
        return false;
      }
      ghost var was, all := chains, Nodes(chains);
      CountNodes(chains, model, hash, table);
      var n := new Entry?[realsize](_ => null);
      var nUsed := used;
      ghost var oldSize := table.Length;
      ghost var moved := MoveAll(n, all);
      assert used == 0;
      table, used, chains := n, nUsed, moved;
      HoldsMoved(was, oldSize, chains, table, all, model, hash);
      ok := true;
    }

    method MoveAll(n: array<Entry?>, ghost all: set<Entry>) returns (ghost moved: seq<Chain>)
      requires TableOk(table, chains, hash) && all == Nodes(chains) && used == |all|
      requires n != table && n.Length > 0 && forall i :: 0 <= i < n.Length ==> n[i] == null
      modifies this`used, n, all
      ensures used == 0 && TableOk(n, moved, hash) && Nodes(moved) == all && |moved| == n.Length
      ensures forall e :: e in all ==> e.val == old(e.val)
    {
      hide Nodes, TableOk, RestOk, Placed, KeysApart;
      moved := seq(n.Length, _ => []);
      ghost var rest := chains;
      BeginMoving(n, moved, all);
      var i := 0;
      while i < table.Length && used > 0
        invariant 0 <= i <= table.Length
        invariant Moving(n, moved, rest, all, i, i) && used + |Nodes(moved)| == |all|
        invariant forall e :: e in all ==> e.val == old(e.val)
        modifies this`used, n, all
      {
        moved, rest := MoveBucket(n, moved, rest, all, i);
        i := i + 1;
      }
      AllMoved(moved, rest, all, i, used);
    }

    method MoveBucket(n: array<Entry?>, ghost moved: seq<Chain>, ghost rest: seq<Chain>, ghost all: set<Entry>, i: nat)
        returns (ghost moved': seq<Chain>, ghost rest': seq<Chain>)
      requires i < table.Length && Moving(n, moved, rest, all, i, i) && used + |Nodes(moved)| == |all|
      modifies this`used, n, all
      ensures Moving(n, moved', rest', all, i + 1, i + 1) && used + |Nodes(moved')| == |all|
      ensures forall e :: e in all ==> e.val == old(e.val)
    {
      EnterBucket(n, moved, rest, all, i);
      hide *;
      moved', rest' := moved, rest;
      var he := table[i];
      while he != null
        invariant AtEntry(he, n, moved', rest', all, i)
        invariant forall e :: e in all ==> e.val == old(e.val)
        decreases |rest'[i]|
        modifies this`used, n, all
      {
        he, moved', rest' := MoveNext(he, n, moved', rest', all, i);
      }
      LeaveBucket(n, moved', rest', all, i);
    }

    /** `he` is the first of what is left of bucket `i`. */
    ghost predicate AtEntry(he: Entry?, n: array<Entry?>, moved: seq<Chain>, rest: seq<Chain>, all: set<Entry>, i: nat)
      reads this, table, n, all
    {
      && i < |rest| && he == First(rest[i])
      && Moving(n, moved, rest, all, i, i + 1) && used + |Nodes(moved)| == |all|
    }

    method MoveNext(he: Entry, n: array<Entry?>, ghost moved: seq<Chain>, ghost rest: seq<Chain>, ghost all: set<Entry>, ghost i: nat)
        returns (nextHe: Entry?, ghost moved': seq<Chain>, ghost rest': seq<Chain>)
      requires AtEntry(he, n, moved, rest, all, i)
      modifies this`used, n, all
      ensures AtEntry(nextHe, n, moved', rest', all, i) && i < |rest| && |rest'[i]| < |rest[i]|
      ensures forall e :: e in all ==> e.val == old(e.val)
    {
      hide Moving, Nodes;
      nextHe := he.next;
      FirstMoves(n, moved, rest, all, i);
      moved', rest' := MoveOne(he, n, moved, rest, all, i);
      used := used - 1;
    }
    lemma EnterBucket(n: array<Entry?>, moved: seq<Chain>, rest: seq<Chain>, all: set<Entry>, i: nat)
      requires i < table.Length && Moving(n, moved, rest, all, i, i) && used + |Nodes(moved)| == |all|
      ensures AtEntry(table[i], n, moved, rest, all, i)
    {
      hide Nodes, TableOk, RestOk, Placed, KeysApart;
    }

    lemma LeaveBucket(n: array<Entry?>, moved: seq<Chain>, rest: seq<Chain>, all: set<Entry>, i: nat)
      requires AtEntry(null, n, moved, rest, all, i)
      ensures Moving(n, moved, rest, all, i + 1, i + 1) && used + |Nodes(moved)| == |all|
    {
      hide Nodes, TableOk, RestOk, Placed, KeysApart;
    }

    lemma FirstMoves(n: array<Entry?>, moved: seq<Chain>, rest: seq<Chain>, all: set<Entry>, i: nat)
      requires i < |rest| && Moving(n, moved, rest, all, i, i + 1) && rest[i] != []
      ensures rest[i][0] in all
    {
      FirstIn(rest, i);
    }

    lemma BeginMoving(n: array<Entry?>, moved: seq<Chain>, all: set<Entry>)
      requires TableOk(table, chains, hash) && all == Nodes(chains)
      requires n != table && |moved| == n.Length > 0 && forall i :: 0 <= i < n.Length ==> n[i] == null
      requires forall i :: 0 <= i < |moved| ==> moved[i] == []
      ensures Moving(n, moved, chains, all, 0, 0) && |Nodes(moved)| == 0
    {
      StartMoving(table, n, chains, moved, hash);
      hide Nodes, RestOk, Placed, KeysApart, BucketOk;
    }

    /** What holds while entries move from the old table to the new: each is in exactly one of them. */
    ghost predicate Moving(n: array<Entry?>, moved: seq<Chain>, rest: seq<Chain>, all: set<Entry>, lo: nat, hi: nat)
      reads this`table, table, n, all
    {
      && n != table && |moved| == n.Length > 0 && table.Length == |rest|
      && Nodes(moved) <= all && Nodes(rest) <= all
      && Nodes(moved) + Nodes(rest) == all && Nodes(moved) !! Nodes(rest)
      && KeysApart(all)
      && TableOk(n, moved, hash)
      && (|rest| > 0 ==> Placed(rest, hash, |rest|)) && RestOk(rest)
      && (forall j :: hi <= j < |rest| ==> table[j] == First(rest[j]))
      && (forall j :: 0 <= j < lo && j < |rest| ==> rest[j] == [])
    }

    /** One entry, the first of what is left of bucket `i`, goes to the new table. */
    method MoveOne(he: Entry, n: array<Entry?>, ghost moved: seq<Chain>, ghost rest: seq<Chain>, ghost all: set<Entry>, ghost i: nat)
        returns (ghost moved': seq<Chain>, ghost rest': seq<Chain>)
      requires Moving(n, moved, rest, all, i, i + 1) && i < |rest| && rest[i] != [] && he == rest[i][0]
      modifies he`next, n
      ensures rest' == rest[i := rest[i][1..]] && Moving(n, moved', rest', all, i, i + 1)
      ensures he in all && |Nodes(moved')| == |Nodes(moved)| + 1 && |Nodes(moved)| < |all|
      ensures First(rest'[i]) == old(he.next)
    {
      hide Nodes, TableOk, RestOk, Placed, IsPower;
      rest' := rest[i := rest[i][1..]];
      PopNode(rest, i, hash);
      PopRest(rest, i, hash);
      assert he in Nodes(rest) && he !in Nodes(rest');
      PushedNodes(moved, hash(he.key) % |moved|, he);
      Proper(Nodes(moved), all, he);
      moved' := Relink(he, n, moved);
    }
    method ExpandIfNeeded()
      requires Valid()
      modifies this, Nodes(chains)
      ensures Valid() && model == old(model) && Nodes(chains) == old(Nodes(chains)) && used == old(used)
      ensures used < table.Length && (table == old(table) || fresh(table))
      ensures table.Length == Grown(old(table.Length), old(used))
    {
      hide TableOk, Holds, IsPower;
      if table.Length == 0 {
        PowerStart();
        var ok := Expand(INITIAL_SIZE);
      } else if used == table.Length {
        PowerDouble(table.Length);
        var ok := Expand(2 * table.Length);
      }
    }

    /** The bucket for a new key, or -1 if the key is there already. */
    method KeyIndex(key: Key) returns (index: int)
      requires Valid()
      modifies this, Nodes(chains)
      ensures Valid() && model == old(model) && Nodes(chains) == old(Nodes(chains)) && used == old(used)
      ensures used < table.Length && (table == old(table) || fresh(table))
      ensures table.Length == Grown(old(table.Length), old(used))
      ensures index == if key in model then -1 else hash(key) % table.Length
    {
      ExpandIfNeeded();
      var he := Find(key);
      index := if he == null then hash(key) % table.Length else -1;
    }

    method Add(key: Key, val: Val) returns (ok: bool)
      requires Valid()
      modifies this, table, Nodes(chains)
      ensures Valid() && (table == old(table) || fresh(table)) && fresh(Nodes(chains) - old(Nodes(chains)))
      ensures table.Length == Grown(old(table.Length), old(used))
      ensures ok <==> key !in old(model)
      ensures model == if ok then old(model)[key := val] else old(model)
    {
      hide TableOk, Holds, IsPower;
      var index := KeyIndex(key);
      if index == -1 {
        return false;
      }
      var entry := new Entry(key, val);
      InsertEntry(entry);
      ok := true;
    }

    method InsertEntry(entry: Entry)
      requires Valid() && used < table.Length && entry.key !in model && entry !in Nodes(chains)
      modifies this, table, entry`next
      ensures Valid() && table == old(table) && Nodes(chains) == old(Nodes(chains)) + {entry}
      ensures model == old(model)[entry.key := entry.val]
    {
      hide TableOk, Holds, IsPower;
      ghost var was := chains;
      NewKey(chains, model, entry.key, hash);
      TableSize(table, was, hash);
      chains := Relink(entry, table, chains);
      PushedNodes(was, hash(entry.key) % |was|, entry);
      HoldsAdded(was, chains, model, entry, hash);
      model := model[entry.key := entry.val];
      used := used + 1;
    }

    /** Whether the key was new; if not, its value is replaced. */
    method Replace(key: Key, val: Val) returns (added: bool)
      requires Valid()
      modifies this, table, Nodes(chains)
      ensures Valid() && (table == old(table) || fresh(table)) && fresh(Nodes(chains) - old(Nodes(chains)))
      ensures added <==> key !in old(model)
      ensures model == old(model)[key := val]
    {
      hide TableOk, Holds, IsPower;
      added := Add(key, val);
      if !added {
        var entry := Find(key);
        SetVal(entry, val);
      }
    }

    method SetVal(entry: Entry, val: Val)
      requires Valid() && entry in Nodes(chains)
      modifies this`model, entry`val
      ensures Valid() && model == old(model)[entry.key := val]
    {
      hide TableOk, IsPower, Has;
      TablePlaced(table, chains, hash);
      hide RestOk, Placed;
      entry.val := val;
      model := model[entry.key := val];
    }

    method Delete(key: Key) returns (ok: bool)
      requires Valid()
      modifies this, table, Nodes(chains)
      ensures Valid() && table == old(table)
      ensures ok <==> key in old(model)
      ensures model == old(model) - {key}
      ensures ok ==> exists e :: e in old(Nodes(chains)) && e.key == key && Removed(old(chains), chains, e)
      ensures !ok ==> chains == old(chains)
    {
      hide Holds, IsPower;
      if table.Length == 0 {
        return false;
      }
      var h := hash(key) % table.Length;
      assert BucketOk(table[h], chains[h], hash, table.Length, h);
      var de := table[h];
      var prevde: Entry? := null;
      ghost var p := 0;
      ghost var c := chains[h];
      while de != null
        invariant 0 <= p <= |c| && de == At(c, p)
        invariant prevde == if p == 0 then null else c[p - 1]
        invariant forall j :: 0 <= j < p ==> c[j].key != key
        decreases |c| - p
      {
        assert de == c[p];
        if de.key == key {
          Unlink(h, p, de, prevde);
          ok := true;
          return;
        }
        prevde, de, p := de, de.next, p + 1;
      }
      NotThere(chains, model, key, hash);
      ok := false;
    }

    method Unlink(h: nat, ghost p: nat, de: Entry, prevde: Entry?)
      requires Valid() && h < |chains| && p < |chains[h]| && de == chains[h][p]
      requires prevde == if p == 0 then null else chains[h][p - 1]
      modifies this, table, Nodes(chains)
      ensures Valid() && table == old(table)
      ensures de.key in old(model) && model == old(model) - {de.key} && Removed(old(chains), chains, de)
    {
      hide TableOk, Holds, IsPower;
      ghost var was := chains;
      TablePlaced(table, was, hash);
      CutNodes(was, h, p, hash);
      chains := Cut(h, p, de, prevde);
      HoldsCut(was, chains, model, de, hash, h, p);
      assert |model - {de.key}| == |model| - 1 by { SmallerMap(model, de.key); }
      model := model - {de.key};
      used := used - 1;
    }

    method Cut(h: nat, ghost p: nat, de: Entry, prevde: Entry?) returns (ghost now: seq<Chain>)
      requires TableOk(table, chains, hash) && h < |chains| && p < |chains[h]| && de == chains[h][p]
      requires prevde == if p == 0 then null else chains[h][p - 1]
      modifies table, Nodes(chains)`next
      ensures now == CutChain(chains, h, p) && TableOk(table, now, hash)
    {
      hide Nodes, ChainIn, TableOk, AllAt, DistinctKeys;
      ghost var c := chains[h];
      now := CutChain(chains, h, p);
      CutIn(chains, h, p);
      BucketFacts(table, chains, h, hash);
      assert prevde != null ==> prevde in c;
      assert de in c && de.next == At(c, p + 1);
      if prevde != null {
        prevde.next := de.next;
      } else {
        table[h] := de.next;
      }
      CutOk(c, p, table[h], hash, table.Length, h);
      hide BucketOk;
      assert forall i :: 0 <= i < |now| && i != h ==> now[i] == chains[i] && BucketOk(table[i], now[i], hash, table.Length, i);
      TableFrom(table, now, hash);
    }

    /** Relinks one entry to the front of its bucket in the new table. */
    method Relink(he: Entry, target: array<Entry?>, ghost moved: seq<Chain>) returns (ghost after: seq<Chain>)
      requires target.Length > 0 && TableOk(target, moved, hash)
      requires he !in Nodes(moved) && forall e :: e in Nodes(moved) ==> e.key != he.key
      modifies he`next, target
      ensures after == Pushed(moved, hash(he.key) % |moved|, he)
      ensures TableOk(target, after, hash)
    {
      var h := hash(he.key) % target.Length;
      after := Pushed(moved, h, he);
      PushedNodes(moved, h, he);
      assert forall i :: 0 <= i < |moved| ==> ChainIn(moved, i) && BucketOk(target[i], moved[i], hash, target.Length, i);
      he.next := target[h];
      target[h] := he;
      PushedIn(moved, h, he);
      assert BucketOk(he.next, moved[h], hash, target.Length, h);
      PrependOk(moved[h], he, hash, target.Length, h);
      hide BucketOk, ChainIn;
      assert forall i :: 0 <= i < |after| && i != h ==> after[i] == moved[i] && BucketOk(target[i], after[i], hash, target.Length, i);
    }
  }

  lemma PushedIn(chains: seq<Chain>, h: nat, e: Entry)
    requires h < |chains|
    ensures forall i :: 0 <= i < |chains| ==> ChainIn(Pushed(chains, h, e), i)
  {
    forall i, x | 0 <= i < |chains| && x in Pushed(chains, h, e)[i]
      ensures x in Nodes(Pushed(chains, h, e))
    {
      var j :| 0 <= j < |Pushed(chains, h, e)[i]| && Pushed(chains, h, e)[i][j] == x;
    }
  }

  lemma PrependOk(c: Chain, e: Entry, hash: Key -> nat, size: nat, i: nat)
    requires size > 0 && BucketOk(e.next, c, hash, size, i) && hash(e.key) % size == i
    requires forall x :: x in c ==> x.key != e.key
    ensures BucketOk(e, [e] + c, hash, size, i)
  {
    var d := [e] + c;
    assert forall j :: 1 <= j < |d| ==> d[j] == c[j - 1] && At(d, j + 1) == At(c, j);
  }

  function Pushed(chains: seq<Chain>, h: nat, e: Entry): seq<Chain>
    requires h < |chains|
  {
    chains[h := [e] + chains[h]]
  }

  lemma PushedNodes(chains: seq<Chain>, h: nat, e: Entry)
    requires h < |chains|
    ensures Nodes(Pushed(chains, h, e)) == Nodes(chains) + {e}
  {
    var after := Pushed(chains, h, e);
    forall x
      ensures x in Nodes(after) <==> x in Nodes(chains) || x == e
    {
      if x in Nodes(chains) {
        var i, j :| 0 <= i < |chains| && 0 <= j < |chains[i]| && x == chains[i][j];
        if i == h {
          assert after[h][j + 1] == x;
        } else {
          assert after[i][j] == x;
        }
      }
      if x == e {
        assert after[h][0] == x;
      }
      if x in Nodes(after) {
        var i, j :| 0 <= i < |after| && 0 <= j < |after[i]| && x == after[i][j];
        if i == h && j > 0 {
          assert chains[h][j - 1] == x;
        } else if i != h {
          assert chains[i][j] == x;
        }
      }
    }
  }

  /** The keys tell the entries apart. */
  predicate KeysApart(all: set<Entry>) {
    forall e, f :: e in all && f in all && e.key == f.key ==> e == f
  }

  predicate Placed(chains: seq<Chain>, hash: Key -> nat, size: nat)
    requires size > 0
  {
    forall i :: 0 <= i < |chains| ==> AllAt(chains[i], hash, size, i) && DistinctKeys(chains[i])
  }

  ghost predicate RestOk(rest: seq<Chain>)
    reads Nodes(rest)`next
  {
    forall i :: 0 <= i < |rest| ==> ChainIn(rest, i) && Linked(rest[i])
  }

  lemma FirstIn(rest: seq<Chain>, i: nat)
    requires i < |rest| && rest[i] != []
    ensures rest[i][0] in Nodes(rest)
  {
  }

  lemma Proper(a: set<Entry>, all: set<Entry>, e: Entry)
    requires a <= all && e in all && e !in a
    ensures |a| < |all| && |a + {e}| == |a| + 1
  {
    assert |all - a| == |all| - |a|;
    assert e in all - a;
  }

  /** Taking the first entry of a bucket away takes just that entry. */
  lemma PopNode(rest: seq<Chain>, i: nat, hash: Key -> nat)
    requires i < |rest| && rest[i] != [] && Placed(rest, hash, |rest|)
    ensures var e := rest[i][0];
            e in Nodes(rest) && Nodes(rest[i := rest[i][1..]]) == Nodes(rest) - {e}
    ensures Placed(rest[i := rest[i][1..]], hash, |rest|)
  {
    var e := rest[i][0];
    var after := rest[i := rest[i][1..]];
    forall x
      ensures x in Nodes(after) <==> x in Nodes(rest) && x != e
    {
      if x in Nodes(after) {
        var a, b :| 0 <= a < |after| && 0 <= b < |after[a]| && x == after[a][b];
        assert x == rest[a][if a == i then b + 1 else b];
        if a == i {
          assert rest[i][b + 1].key != e.key;
        } else {
          assert hash(x.key) % |rest| == a && hash(e.key) % |rest| == i;
        }
      }
      if x in Nodes(rest) && x != e {
        var a, b :| 0 <= a < |rest| && 0 <= b < |rest[a]| && x == rest[a][b];
        assert x == after[a][if a == i then b - 1 else b];
      }
    }
    assert forall b :: 0 <= b < |after[i]| ==> after[i][b] == rest[i][b + 1];
  }

  lemma TailLinked(c: Chain)
    requires Linked(c) && c != []
    ensures Linked(c[1..]) && c[0].next == First(c[1..])
  {
    var d := c[1..];
    forall j | 0 <= j < |d|
      ensures d[j].next == At(d, j + 1)
    {
      assert d[j] == c[j + 1] && c[j + 1].next == At(c, j + 2);
    }
  }

  lemma PopRest(rest: seq<Chain>, i: nat, hash: Key -> nat)
    requires i < |rest| && rest[i] != [] && Placed(rest, hash, |rest|) && RestOk(rest)
    ensures RestOk(rest[i := rest[i][1..]])
    ensures rest[i][0].next == First(rest[i][1..])
  {
    var after := rest[i := rest[i][1..]];
    PopNode(rest, i, hash);
    assert Linked(rest[i]);
    forall a | 0 <= a < |after|
      ensures ChainIn(after, a) && Linked(after[a])
    {
      assert ChainIn(rest, a) && Linked(rest[a]);
      forall x | x in after[a]
        ensures x in Nodes(after)
      {
        var b :| 0 <= b < |after[a]| && after[a][b] == x;
      }
      if a == i {
        TailLinked(rest[i]);
      }
    }
  }

  lemma KeysCount(all: set<Entry>)
    requires KeysApart(all)
    ensures |all| == |set e | e in all :: e.key|
  {
    if all != {} {
      var e :| e in all;
      var rest := all - {e};
      KeysCount(rest);
      var ks, ls := set x | x in all :: x.key, set x | x in rest :: x.key;
      assert ks == ls + {e.key};
      assert e.key !in ls;
    }
  }

  lemma NodesApart(chains: seq<Chain>, hash: Key -> nat)
    requires |chains| > 0 ==> Placed(chains, hash, |chains|)
    ensures KeysApart(Nodes(chains))
  {
    forall e, f | e in Nodes(chains) && f in Nodes(chains) && e.key == f.key
      ensures e == f
    {
      var a, b :| 0 <= a < |chains| && 0 <= b < |chains[a]| && e == chains[a][b];
      var c, d :| 0 <= c < |chains| && 0 <= d < |chains[c]| && f == chains[c][d];
      assert hash(e.key) % |chains| == a && hash(f.key) % |chains| == c;
    }
  }

  lemma TablePlaced(table: array<Entry?>, chains: seq<Chain>, hash: Key -> nat)
    requires TableOk(table, chains, hash)
    ensures |chains| > 0 ==> Placed(chains, hash, |chains|)
    ensures RestOk(chains) && KeysApart(Nodes(chains))
  {
    forall i | 0 <= i < |chains|
      ensures AllAt(chains[i], hash, |chains|, i) && DistinctKeys(chains[i]) && ChainIn(chains, i) && Linked(chains[i])
    {
      assert BucketOk(table[i], chains[i], hash, table.Length, i);
    }
    NodesApart(chains, hash);
  }

  lemma HasNode(chains: seq<Chain>, k: Key, hash: Key -> nat)
    ensures Has(chains, k, hash) ==> exists e :: e in Nodes(chains) && e.key == k
    ensures |chains| > 0 && Placed(chains, hash, |chains|) && (exists e :: e in Nodes(chains) && e.key == k) ==> Has(chains, k, hash)
  {
    if Has(chains, k, hash) {
      var h := hash(k) % |chains|;
      var j :| 0 <= j < |chains[h]| && chains[h][j].key == k;
      assert chains[h][j] in Nodes(chains);
    }
    if |chains| > 0 && Placed(chains, hash, |chains|) && exists e :: e in Nodes(chains) && e.key == k {
      var e :| e in Nodes(chains) && e.key == k;
      var a, b :| 0 <= a < |chains| && 0 <= b < |chains[a]| && e == chains[a][b];
      assert hash(e.key) % |chains| == a;
    }
  }

  /** The entry count is the size of the map. */
  lemma CountNodes(chains: seq<Chain>, model: map<Key, Val>, hash: Key -> nat, table: array<Entry?>)
    requires TableOk(table, chains, hash) && Holds(chains, model, hash)
    ensures |Nodes(chains)| == |model|
  {
    TablePlaced(table, chains, hash);
    var all := Nodes(chains);
    KeysCount(all);
    forall k
      ensures k in model <==> k in set e | e in all :: e.key
    {
      HasNode(chains, k, hash);
    }
    assert (set e | e in all :: e.key) == model.Keys;
    assert |model| == |model.Keys|;
  }

  lemma StartMoving(table: array<Entry?>, n: array<Entry?>, chains: seq<Chain>, moved: seq<Chain>, hash: Key -> nat)
    requires TableOk(table, chains, hash) && n.Length == |moved| > 0
    requires (forall i :: 0 <= i < |moved| ==> moved[i] == []) && forall i :: 0 <= i < n.Length ==> n[i] == null
    ensures Nodes(moved) == {} && TableOk(n, moved, hash)
    ensures |chains| > 0 ==> Placed(chains, hash, |chains|)
    ensures RestOk(chains) && KeysApart(Nodes(chains))
    ensures forall i :: 0 <= i < |chains| ==> table[i] == First(chains[i])
  {
    TablePlaced(table, chains, hash);
    forall i | 0 <= i < |chains|
      ensures table[i] == First(chains[i])
    {
      assert BucketOk(table[i], chains[i], hash, table.Length, i);
    }
  }

  lemma AllMoved(moved: seq<Chain>, rest: seq<Chain>, all: set<Entry>, i: nat, used: nat)
    requires Nodes(moved) + Nodes(rest) == all && Nodes(moved) !! Nodes(rest) && used + |Nodes(moved)| == |all|
    requires i >= |rest| || used == 0
    requires forall j :: 0 <= j < i && j < |rest| ==> rest[j] == []
    ensures used == 0 && Nodes(moved) == all
  {
    if i >= |rest| {
      assert Nodes(rest) == {};
      assert Nodes(moved) == all;
    } else {
      assert |Nodes(rest)| + |Nodes(moved)| == |all|;
      assert Nodes(rest) == {};
    }
  }

  lemma HoldsMoved(was: seq<Chain>, oldSize: nat, chains: seq<Chain>, table: array<Entry?>, all: set<Entry>,
                   model: map<Key, Val>, hash: Key -> nat)
    requires TableOk(table, chains, hash) && |chains| > 0 && Nodes(chains) == all == Nodes(was)
    requires forall e :: e in all ==> e.key in model && model[e.key] == e.val
    requires forall k :: k in model ==> Has(was, k, hash)
    ensures Holds(chains, model, hash)
  {
    TablePlaced(table, chains, hash);
    forall k | k in model
      ensures Has(chains, k, hash)
    {
      HasNode(was, k, hash);
      HasNode(chains, k, hash);
    }
  }

  lemma TableSize(table: array<Entry?>, chains: seq<Chain>, hash: Key -> nat)
    ensures TableOk(table, chains, hash) ==> |chains| == table.Length
  {
  }

  lemma NewKey(chains: seq<Chain>, model: map<Key, Val>, k: Key, hash: Key -> nat)
    requires Holds(chains, model, hash) && k !in model
    ensures forall e :: e in Nodes(chains) ==> e.key != k
  {
  }

  lemma HasPushed(was: seq<Chain>, h: nat, e: Entry, k: Key, hash: Key -> nat)
    requires h < |was| && h == hash(e.key) % |was| && (Has(was, k, hash) || k == e.key)
    ensures Has(Pushed(was, h, e), k, hash)
  {
    var chains: seq<Chain> := Pushed(was, h, e);
    var a := hash(k) % |was|;
    if k == e.key {
      assert chains[a][0].key == k;
    } else {
      var j :| 0 <= j < |was[a]| && was[a][j].key == k;
      if a == h {
        assert chains[a][j + 1] == was[a][j];
      } else {
        assert chains[a][j] == was[a][j];
      }
    }
  }

  lemma HoldsAdded(was: seq<Chain>, chains: seq<Chain>, model: map<Key, Val>, e: Entry, hash: Key -> nat)
    requires |was| > 0 && chains == Pushed(was, hash(e.key) % |was|, e) && Holds(was, model, hash) && e.key !in model
    ensures Holds(chains, model[e.key := e.val], hash)
  {
    hide Nodes, Has, Pushed;
    PushedNodes(was, hash(e.key) % |was|, e);
    forall k | k in model[e.key := e.val]
      ensures Has(chains, k, hash)
    {
      HasPushed(was, hash(e.key) % |was|, e, k, hash);
    }
  }

  /** One entry was taken out of its chain. */
  predicate Removed(was: seq<Chain>, now: seq<Chain>, e: Entry) {
    exists h, p :: 0 <= h < |was| && 0 <= p < |was[h]| && was[h][p] == e && now == was[h := was[h][..p] + was[h][p + 1..]]
  }

  lemma NotThere(chains: seq<Chain>, model: map<Key, Val>, k: Key, hash: Key -> nat)
    requires Holds(chains, model, hash) && |chains| > 0
    requires forall j :: 0 <= j < |chains[hash(k) % |chains|]| ==> chains[hash(k) % |chains|][j].key != k
    ensures k !in model && model - {k} == model
  {
  }

  function CutChain(chains: seq<Chain>, h: nat, p: nat): seq<Chain>
    requires h < |chains| && p < |chains[h]|
  {
    chains[h := chains[h][..p] + chains[h][p + 1..]]
  }

  lemma CutIn(chains: seq<Chain>, h: nat, p: nat)
    requires h < |chains| && p < |chains[h]|
    ensures forall i :: 0 <= i < |chains| ==> ChainIn(CutChain(chains, h, p), i)
  {
    var now := CutChain(chains, h, p);
    forall i, x | 0 <= i < |chains| && x in now[i]
      ensures x in Nodes(now)
    {
      var j :| 0 <= j < |now[i]| && now[i][j] == x;
    }
  }

  /** The entries of one bucket are in no other. */
  lemma ElsewhereApart(chains: seq<Chain>, h: nat, hash: Key -> nat)
    requires h < |chains| && Placed(chains, hash, |chains|)
    ensures forall i, e :: 0 <= i < |chains| && i != h && e in chains[h] ==> e !in chains[i]
  {
    forall i, e | 0 <= i < |chains| && i != h && e in chains[h]
      ensures e !in chains[i]
    {
      assert hash(e.key) % |chains| == h;
    }
  }

  lemma BucketFacts(table: array<Entry?>, chains: seq<Chain>, h: nat, hash: Key -> nat)
    requires TableOk(table, chains, hash) && h < |chains|
    ensures |chains| == table.Length && table[h] == First(chains[h]) && Linked(chains[h])
    ensures DistinctKeys(chains[h]) && AllAt(chains[h], hash, table.Length, h)
    ensures forall i :: 0 <= i < |chains| ==> BucketOk(table[i], chains[i], hash, table.Length, i)
    ensures forall i, e :: 0 <= i < |chains| && i != h && e in chains[h] ==> e !in chains[i]
    ensures forall e :: e in chains[h] ==> e in Nodes(chains)
  {
    TablePlaced(table, chains, hash);
    ElsewhereApart(chains, h, hash);
    assert BucketOk(table[h], chains[h], hash, table.Length, h) && ChainIn(chains, h);
  }

  lemma TableFrom(table: array<Entry?>, chains: seq<Chain>, hash: Key -> nat)
    requires |chains| == table.Length
    requires forall i :: 0 <= i < |chains| ==> ChainIn(chains, i) && BucketOk(table[i], chains[i], hash, table.Length, i)
    ensures TableOk(table, chains, hash)
  {
  }

  lemma CutOk(c: Chain, p: nat, head: Entry?, hash: Key -> nat, size: nat, i: nat)
    requires size > 0 && p < |c| && DistinctKeys(c) && AllAt(c, hash, size, i)
    requires forall j {:trigger c[j].next} :: 0 <= j < |c| && j != p - 1 && j != p ==> c[j].next == At(c, j + 1)
    requires if p == 0 then head == At(c, 1) else head == c[0] && c[p - 1].next == At(c, p + 1)
    ensures BucketOk(head, c[..p] + c[p + 1..], hash, size, i)
  {
    var d := c[..p] + c[p + 1..];
    assert forall j :: 0 <= j < |d| ==> d[j] == c[if j < p then j else j + 1];
    forall j | 0 <= j < |d|
      ensures d[j].next == At(d, j + 1)
    {
      assert d[j] == c[if j < p then j else j + 1];
    }
  }

  /** Where an entry of the shortened chain was before. */
  function Before(p: nat, b: nat): nat {
    if b < p then b else b + 1
  }

  lemma CutChainAt(c: Chain, p: nat, b: nat)
    requires p < |c| && b < |c| - 1
    ensures (c[..p] + c[p + 1..])[b] == c[Before(p, b)]
  {
  }

  lemma CutGives(chains: seq<Chain>, h: nat, p: nat, hash: Key -> nat, x: Entry)
    requires h < |chains| && p < |chains[h]| && Placed(chains, hash, |chains|)
    requires x in Nodes(CutChain(chains, h, p))
    ensures x in Nodes(chains) && x != chains[h][p]
  {
    var now := CutChain(chains, h, p);
    var a, b :| 0 <= a < |now| && 0 <= b < |now[a]| && x == now[a][b];
    var c := chains[a];
    assert AllAt(chains[a], hash, |chains|, a) && AllAt(chains[h], hash, |chains|, h) && DistinctKeys(chains[h]);
    if a == h {
      CutChainAt(c, p, b);
      assert x == c[Before(p, b)];
    } else {
      assert x == c[b] && hash(x.key) % |chains| == a;
    }
  }

  lemma CutKeeps(chains: seq<Chain>, h: nat, p: nat, x: Entry)
    requires h < |chains| && p < |chains[h]|
    requires x in Nodes(chains) && x != chains[h][p]
    ensures x in Nodes(CutChain(chains, h, p))
  {
    var now := CutChain(chains, h, p);
    var a, b :| 0 <= a < |chains| && 0 <= b < |chains[a]| && x == chains[a][b];
    var b' := if a == h && b > p then b - 1 else b;
    if a == h {
      CutChainAt(chains[h], p, b');
    }
    assert x == now[a][b'];
  }

  lemma CutNodes(chains: seq<Chain>, h: nat, p: nat, hash: Key -> nat)
    requires h < |chains| && p < |chains[h]| && Placed(chains, hash, |chains|)
    ensures chains[h][p] in Nodes(chains)
    ensures Nodes(CutChain(chains, h, p)) == Nodes(chains) - {chains[h][p]}
    ensures Removed(chains, CutChain(chains, h, p), chains[h][p])
  {
    FoundIn(chains, h, p);
    hide Nodes, Placed;
    var now, e := CutChain(chains, h, p), chains[h][p];
    forall x
      ensures x in Nodes(now) <==> x in Nodes(chains) && x != e
    {
      if x in Nodes(now) {
        CutGives(chains, h, p, hash, x);
      }
      if x in Nodes(chains) && x != e {
        CutKeeps(chains, h, p, x);
      }
    }
  }

  lemma FoundIn(chains: seq<Chain>, h: nat, p: nat)
    requires h < |chains| && p < |chains[h]|
    ensures chains[h][p] in Nodes(chains)
  {
  }

  lemma HasCut(was: seq<Chain>, h: nat, p: nat, hash: Key -> nat, k: Key)
    requires h < |was| && p < |was[h]| && Has(was, k, hash) && k != was[h][p].key
    ensures Has(CutChain(was, h, p), k, hash)
  {
    var a := hash(k) % |was|;
    var b :| 0 <= b < |was[a]| && was[a][b].key == k;
    var b' := if a == h && b > p then b - 1 else b;
    if a == h {
      CutChainAt(was[h], p, b');
    }
    assert CutChain(was, h, p)[a][b'].key == k;
  }

  lemma KeysLeft(all: set<Entry>, e: Entry)
    requires KeysApart(all) && e in all
    ensures forall x :: x in all && x != e ==> x.key != e.key
  {
  }

  lemma HoldsCut(was: seq<Chain>, now: seq<Chain>, model: map<Key, Val>, e: Entry, hash: Key -> nat, h: nat, p: nat)
    requires h < |was| && p < |was[h]| && e == was[h][p] && now == CutChain(was, h, p)
    requires Holds(was, model, hash) && Placed(was, hash, |was|) && KeysApart(Nodes(was))
    ensures e.key in model && Holds(now, model - {e.key}, hash)
  {
    CutNodes(was, h, p, hash);
    hide Nodes, Placed, KeysApart;
    forall k | k in model && k != e.key
      ensures Has(now, k, hash)
    {
      HasCut(was, h, p, hash, k);
    }
    KeysLeft(Nodes(was), e);
  }

  lemma SmallerMap(m: map<Key, Val>, k: Key)
    requires k in m
    ensures |m - {k}| == |m| - 1
  {
    assert (m - {k}).Keys == m.Keys - {k};
    assert |m| == |m.Keys| && |m - {k}| == |(m - {k}).Keys|;
  }

  // ---------- iteration ----------

  /** The entries of the buckets from `i` on, in bucket and chain order. */
  function Flat(chains: seq<Chain>, i: nat): seq<Entry>
    decreases |chains| - i
  {
    if i >= |chains| then [] else chains[i] + Flat(chains, i + 1)
  }

  /** `pos` is the place in the current chain of the entry to be returned next. */
  class DictIterator {
    const ht: HashTable
    var index: int
    var entry: Entry?
    var nextEntry: Entry?
    ghost var pos: nat

    ghost predicate Valid()
      reads this, ht, ht.table, Nodes(ht.chains)
    {
      && ht.Valid() && index >= -1
      && (index == -1 ==> entry == null)
      && (0 <= index < |ht.chains| ==>
            && pos <= |ht.chains[index]|
            && (if entry == null then pos == |ht.chains[index]| else nextEntry == At(ht.chains[index], pos)))
      && (index >= |ht.chains| ==> entry == null)
    }

    /** What is still to be returned. */
    ghost function Left(): seq<Entry>
      reads this, ht, ht.table, Nodes(ht.chains)
      requires Valid()
    {
      if index == -1 then Flat(ht.chains, 0)
      else if index >= |ht.chains| then []
      else ht.chains[index][pos..] + Flat(ht.chains, index + 1)
    }

    constructor (ht: HashTable)
      requires ht.Valid()
      ensures Valid() && this.ht == ht && Left() == Flat(ht.chains, 0)
    {
      this.ht, index, entry, nextEntry, pos := ht, -1, null, null, 0;
    }

    /** The next entry, or null; the one after it is noted, so that the one returned may be deleted. */
    method Next() returns (he: Entry?)
      requires Valid()
      modifies this
      ensures Valid() && entry == he
      ensures if old(Left()) == [] then he == null && Left() == []
              else he == old(Left())[0] && Left() == old(Left())[1..] && 0 <= index < |ht.chains|
                   && 0 < pos <= |ht.chains[index]| && ht.chains[index][pos - 1] == he
    {
      hide Valid, Left, Aimed, Ahead;
      while true
        invariant Valid() && Left() == old(Left())
        decreases |ht.chains| - index, if entry == null then 0 else 1
      {
        var done := Aim();
        if done {
          return null;
        }
        if entry != null {
          Note();
          return entry;
        }
        AtChainEnd();
      }
    }

    lemma AtChainEnd()
      requires Aimed() && entry == null
      ensures Valid() && Left() == Ahead() && index < |ht.chains|
    {
      EndOfChain(ht.chains[index], pos);
    }

    /** Deletes the entry just returned; what is still to come is not disturbed. */
    method DeleteCurrent()
      requires Valid() && entry != null && 0 <= index < |ht.chains| && 0 < pos && ht.chains[index][pos - 1] == entry
      modifies this`pos, ht, ht.table, Nodes(ht.chains)
      ensures Valid() && Left() == old(Left()) && ht.model == old(ht.model) - {entry.key}
      ensures ht.table == old(ht.table) && Nodes(ht.chains) <= old(Nodes(ht.chains))
    {
      hide TableOk, Holds, IsPower, Flat, Removed, RestOk, Placed, KeysApart;
      ghost var was := ht.chains;
      TablePlaced(ht.table, was, ht.hash);
      FoundIn(was, index, pos - 1);
      KeyHeld(was, ht.model, entry, ht.hash);
      var ok := ht.Delete(entry.key);
      hide Nodes;
      OneRemoved(was, ht.chains, entry, index, pos - 1, ht.hash);
      FlatSame(was, ht.chains, index + 1);
      pos := pos - 1;
    }

    /** A whole iteration, deleting as it goes: each entry is returned once, and the others stay in the map. */
    method VisitAll(doomed: Key -> bool) returns (visited: seq<Entry>)
      requires Valid() && index == -1
      modifies this, ht, ht.table, Nodes(ht.chains)
      ensures Valid() && visited == old(Flat(ht.chains, 0))
      ensures ht.model == Kept(old(ht.model), doomed)
    {
      visited := [];
      ghost var all, model := Flat(ht.chains, 0), ht.model;
      AllKeys(ht);
      hide *;
      var he := VisitFirst(all, model, doomed);
      visited := VisitRest(he, ht.table, Nodes(ht.chains), all, model, doomed);
      SparedAll(ht.model, model, visited, doomed);
    }

    method VisitRest(first: Entry?, ghost table: array<Entry?>, ghost nodes: set<Entry>, ghost all: seq<Entry>,
                     ghost model: map<Key, Val>, doomed: Key -> bool)
        returns (visited: seq<Entry>)
      requires AtVisit(first, [], all, model, doomed) && ht.table == table && Nodes(ht.chains) <= nodes
      modifies this, ht, table, nodes
      ensures Valid() && visited == all && Spared(ht.model, model, visited, doomed)
    {
      hide *;
      var he := first;
      visited := [];
      while he != null
        invariant AtVisit(he, visited, all, model, doomed) && ht.table == table && Nodes(ht.chains) <= nodes
        decreases |all| - |visited|
      {
        var current := he;
        he := VisitOne(he, visited, all, model, doomed);
        visited := visited + [current];
      }
      VisitsEnd(visited, all, model, doomed);
    }

    method VisitFirst(ghost all: seq<Entry>, ghost model: map<Key, Val>, ghost doomed: Key -> bool) returns (he: Entry?)
      requires Valid() && index == -1 && all == Flat(ht.chains, 0) && model == ht.model
      modifies this
      ensures AtVisit(he, [], all, model, doomed)
    {
      hide TableOk, Holds, IsPower, Flat, Spared, Visited;
      NoneSpared(model, doomed);
      he := Next();
    }

    lemma VisitsEnd(visited: seq<Entry>, all: seq<Entry>, model: map<Key, Val>, doomed: Key -> bool)
      requires AtVisit(null, visited, all, model, doomed)
      ensures Valid() && visited == all && Spared(ht.model, model, visited, doomed)
    {
    }

    /** `he` has just been returned, after `visited`. */
    ghost predicate AtVisit(he: Entry?, visited: seq<Entry>, all: seq<Entry>, model: map<Key, Val>, doomed: Key -> bool)
      reads this, ht, ht.table, Nodes(ht.chains)
    {
      && Valid() && Spared(ht.model, model, visited, doomed) && |visited| <= |all|
      && (he == null ==> visited == all)
      && (he != null ==>
            && he == entry && 0 <= index < |ht.chains| && 0 < pos && ht.chains[index][pos - 1] == he
            && |visited| < |all| && he == all[|visited|] && visited == all[..|visited|] && Left() == all[|visited| + 1..])
    }

    method VisitOne(he: Entry, ghost visited: seq<Entry>, ghost all: seq<Entry>, ghost model: map<Key, Val>, doomed: Key -> bool)
        returns (next: Entry?)
      requires AtVisit(he, visited, all, model, doomed)
      modifies this, ht, ht.table, Nodes(ht.chains)
      ensures AtVisit(next, visited + [he], all, model, doomed) && |visited| < |all|
      ensures ht.table == old(ht.table) && Nodes(ht.chains) <= old(Nodes(ht.chains))
    {
      hide TableOk, Holds, IsPower, Flat, Spared, Visited;
      SparedMore(ht.model, model, visited, he, doomed);
      if doomed(he.key) {
        DeleteCurrent();
      }
      next := Next();
      AllSplit(all, |visited|);
    }

    /** Between choosing the current entry and noting its successor. */
    ghost predicate Aimed()
      reads this, ht, ht.table, Nodes(ht.chains)
    {
      ht.Valid() && 0 <= index < |ht.chains| && pos <= |ht.chains[index]| && entry == At(ht.chains[index], pos)
    }

    ghost function Ahead(): seq<Entry>
      reads this, ht, ht.table, Nodes(ht.chains)
      requires Aimed()
    {
      ht.chains[index][pos..] + Flat(ht.chains, index + 1)
    }

    /** The head of the next bucket at the end of a chain, else the noted successor. */
    method Aim() returns (done: bool)
      requires Valid()
      modifies this
      ensures done ==> Valid() && entry == null && Left() == [] == old(Left())
      ensures !done ==> Aimed() && Ahead() == old(Left())
      ensures !done ==> if old(entry) == null then index == old(index) + 1 else index == old(index)
    {
      hide TableOk, Holds, IsPower, Nodes, Flat;
      TableSize(ht.table, ht.chains, ht.hash);
      FlatEnd(ht.chains, |ht.chains|);
      if entry == null {
        if 0 <= index < |ht.chains| {
          EndOfChain(ht.chains[index], pos);
        }
        ghost var left := Left();
        index := index + 1;
        if index >= ht.table.Length {
          return true;
        }
        assert left == Flat(ht.chains, index);
        pos := 0;
        HeadOf(ht.table, ht.chains, index, ht.hash);
        FlatHead(ht.chains, index);
        entry := ht.table[index];
      } else {
        entry := nextEntry;
      }
      done := false;
    }

    method Note()
      requires Aimed() && entry != null
      modifies this`nextEntry, this`pos
      ensures Valid() && old(Ahead()) != [] && entry == old(Ahead())[0] && Left() == old(Ahead())[1..]
      ensures 0 <= index < |ht.chains| && 0 < pos <= |ht.chains[index]| && ht.chains[index][pos - 1] == entry
    {
      hide TableOk, Holds, IsPower, Nodes, Flat;
      NextOf(ht.table, ht.chains, index, pos, ht.hash);
      SplitHead(ht.chains[index], pos, Flat(ht.chains, index + 1));
      nextEntry := entry.next;
      pos := pos + 1;
    }
  }

  lemma FlatEnd(chains: seq<Chain>, i: nat)
    requires i >= |chains|
    ensures Flat(chains, i) == []
  {
  }

  lemma EndOfChain(c: Chain, p: nat)
    ensures p <= |c| && At(c, p) == null ==> p == |c| && forall rest: seq<Entry> :: c[p..] + rest == rest
  {
  }

  lemma HeadOf(table: array<Entry?>, chains: seq<Chain>, i: nat, hash: Key -> nat)
    requires TableOk(table, chains, hash) && i < |chains|
    ensures i < table.Length && table[i] == At(chains[i], 0)
  {
  }

  lemma NextOf(table: array<Entry?>, chains: seq<Chain>, i: nat, j: nat, hash: Key -> nat)
    requires TableOk(table, chains, hash) && i < |chains| && j < |chains[i]|
    ensures chains[i][j].next == At(chains[i], j + 1)
  {
    assert BucketOk(table[i], chains[i], hash, table.Length, i);
  }

  lemma FlatHead(chains: seq<Chain>, i: nat)
    requires i < |chains|
    ensures Flat(chains, i) == chains[i][0..] + Flat(chains, i + 1)
  {
  }

  lemma SplitHead(c: Chain, p: nat, rest: seq<Entry>)
    requires p < |c|
    ensures (c[p..] + rest)[0] == c[p] && (c[p..] + rest)[1..] == c[p + 1..] + rest && c[p..] + rest != []
  {
  }

  lemma KeyHeld(chains: seq<Chain>, model: map<Key, Val>, e: Entry, hash: Key -> nat)
    requires Holds(chains, model, hash) && e in Nodes(chains)
    ensures e.key in model
  {
  }

  lemma OneRemoved(was: seq<Chain>, now: seq<Chain>, e: Entry, h: nat, p: nat, hash: Key -> nat)
    requires h < |was| && p < |was[h]| && was[h][p] == e
    requires Placed(was, hash, |was|) && KeysApart(Nodes(was))
    requires exists x :: x in Nodes(was) && x.key == e.key && Removed(was, now, x)
    ensures now == CutChain(was, h, p)
    ensures p <= |now[h]| && At(now[h], p) == At(was[h], p + 1) && now[h][p..] == was[h][p + 1..]
  {
    FoundIn(was, h, p);
    var x :| x in Nodes(was) && x.key == e.key && Removed(was, now, x);
    assert x == e;
    hide Nodes, KeysApart;
    var a, b :| 0 <= a < |was| && 0 <= b < |was[a]| && was[a][b] == e && now == CutChain(was, a, b);
    SamePlace(was, hash, a, b, h, p);
    CutTail(was[h], p);
  }

  lemma SamePlace(was: seq<Chain>, hash: Key -> nat, a: nat, b: nat, h: nat, p: nat)
    requires a < |was| && b < |was[a]| && h < |was| && p < |was[h]| && was[a][b] == was[h][p]
    requires Placed(was, hash, |was|)
    ensures a == h && b == p
  {
    assert AllAt(was[a], hash, |was|, a) && AllAt(was[h], hash, |was|, h) && DistinctKeys(was[h]);
    assert hash(was[a][b].key) % |was| == a;
  }

  lemma CutTail(c: Chain, p: nat)
    requires p < |c|
    ensures var d := c[..p] + c[p + 1..]; p <= |d| && At(d, p) == At(c, p + 1) && d[p..] == c[p + 1..]
  {
  }

  lemma {:induction false} FlatSame(was: seq<Chain>, now: seq<Chain>, i: nat)
    requires |was| == |now| && forall k :: i <= k < |was| ==> was[k] == now[k]
    ensures Flat(was, i) == Flat(now, i)
    decreases |was| - i
  {
    if i < |was| {
      FlatSame(was, now, i + 1);
    }
  }

  ghost function Kept(model: map<Key, Val>, doomed: Key -> bool): map<Key, Val> {
    map k | k in model && !doomed(k) :: model[k]
  }

  /** The map without the doomed keys among those visited. */
  ghost predicate Spared(now: map<Key, Val>, was: map<Key, Val>, visited: seq<Entry>, doomed: Key -> bool) {
    now == map k | k in was && !(doomed(k) && Visited(visited, k)) :: was[k]
  }

  predicate Visited(visited: seq<Entry>, k: Key) {
    exists i :: 0 <= i < |visited| && visited[i].key == k
  }

  lemma AllKeys(ht: HashTable)
    requires ht.Valid()
    ensures forall k :: k in ht.model ==> Visited(Flat(ht.chains, 0), k)
  {
    FlatKeys(ht.table, ht.chains, ht.model, ht.hash);
  }

  lemma NoneSpared(model: map<Key, Val>, doomed: Key -> bool)
    ensures Spared(model, model, [], doomed)
  {
    assert forall k :: !Visited([], k);
  }

  lemma AllSplit(all: seq<Entry>, n: nat)
    requires n < |all|
    ensures all[..n + 1] == all[..n] + [all[n]]
    ensures all[n + 1..] == [] <==> n + 1 == |all|
    ensures n + 1 < |all| ==> all[n + 1..][0] == all[n + 1] && all[n + 1..][1..] == all[n + 2..]
    ensures n + 1 == |all| ==> all[..n + 1] == all
  {
  }

  lemma VisitedMore(visited: seq<Entry>, e: Entry, k: Key)
    ensures Visited(visited + [e], k) <==> Visited(visited, k) || k == e.key
  {
    if Visited(visited, k) {
      var i :| 0 <= i < |visited| && visited[i].key == k;
      assert (visited + [e])[i].key == k;
    }
    if k == e.key {
      assert (visited + [e])[|visited|].key == k;
    }
  }

  lemma SparedMore(now: map<Key, Val>, was: map<Key, Val>, visited: seq<Entry>, e: Entry, doomed: Key -> bool)
    requires Spared(now, was, visited, doomed)
    ensures Spared(if doomed(e.key) then now - {e.key} else now, was, visited + [e], doomed)
  {
    var kept := if doomed(e.key) then now - {e.key} else now;
    hide Visited;
    forall k
      ensures k in kept <==> k in was && !(doomed(k) && Visited(visited + [e], k))
    {
      VisitedMore(visited, e, k);
    }
  }

  lemma SparedAll(now: map<Key, Val>, was: map<Key, Val>, visited: seq<Entry>, doomed: Key -> bool)
    requires Spared(now, was, visited, doomed) && forall k :: k in was ==> Visited(visited, k)
    ensures now == Kept(was, doomed)
  {
  }

  lemma {:induction false} FlatHas(chains: seq<Chain>, i: nat, a: nat, b: nat)
    requires i <= a < |chains| && b < |chains[a]|
    ensures chains[a][b] in Flat(chains, i)
    decreases |chains| - i
  {
    if i < a {
      FlatHas(chains, i + 1, a, b);
    }
  }

  lemma FlatKeys(table: array<Entry?>, chains: seq<Chain>, model: map<Key, Val>, hash: Key -> nat)
    requires TableOk(table, chains, hash) && Holds(chains, model, hash)
    ensures forall k :: k in model ==> Visited(Flat(chains, 0), k)
  {
    hide TableOk, Flat;
    forall k | k in model
      ensures Visited(Flat(chains, 0), k)
    {
      var a := hash(k) % |chains|;
      var b :| 0 <= b < |chains[a]| && chains[a][b].key == k;
      FlatHas(chains, 0, a, b);
    }
  }

  /** The entries from bucket `i` on hash to bucket `i` or a later one, and differ in their keys. */
  lemma {:induction false} FlatApart(chains: seq<Chain>, i: nat, hash: Key -> nat)
    requires |chains| > 0 && Placed(chains, hash, |chains|)
    ensures forall e :: e in Flat(chains, i) ==> e in Nodes(chains) && hash(e.key) % |chains| >= i
    ensures DistinctKeys(Flat(chains, i))
    decreases |chains| - i
  {
    if i < |chains| {
      FlatApart(chains, i + 1, hash);
      var c, rest := chains[i], Flat(chains, i + 1);
      assert AllAt(c, hash, |chains|, i) && DistinctKeys(c);
      hide Flat;
      forall e | e in c
        ensures e in Nodes(chains) && hash(e.key) % |chains| == i
      {
        var j :| 0 <= j < |c| && c[j] == e;
        FoundIn(chains, i, j);
      }
      forall j, l | 0 <= j < l < |c + rest|
        ensures (c + rest)[j].key != (c + rest)[l].key
      {
        if j < |c| <= l {
          assert (c + rest)[j] in c && (c + rest)[l] in rest;
        }
      }
    }
  }

  /** A full iteration lists each entry of the table exactly once. */
  lemma FlatIsComplete(table: array<Entry?>, chains: seq<Chain>, model: map<Key, Val>, hash: Key -> nat)
    requires TableOk(table, chains, hash) && Holds(chains, model, hash)
    ensures DistinctKeys(Flat(chains, 0))
    ensures forall k :: k in model <==> Visited(Flat(chains, 0), k)
    ensures forall e :: e in Flat(chains, 0) ==> e.key in model && model[e.key] == e.val
  {
    FlatKeys(table, chains, model, hash);
    if |chains| > 0 {
      TablePlaced(table, chains, hash);
      FlatApart(chains, 0, hash);
    }
  }
}
