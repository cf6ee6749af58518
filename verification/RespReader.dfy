/**
 * The incremental reply reader: a buffer with a cursor and a nine-slot stack of read tasks. Fed in
 * any pieces, it emits what the recursive parser reads from the whole stream.
 */
module RespReader {
  import opened Bytes
  import opened Decimal
  import opened Resp

  /**
   * A read task. elements is the array's element count, or -1; idx is the position in the parent
   * array; obj holds the elements that have been read so far.
   */
  datatype Task = Task(ty: Option<ReplyType>, elements: int, idx: int, obj: seq<Reply>)

  /** An array task whose element at idx is being read. */
  predicate InProgress(t: Task, idx: int) {
    t.ty == Some(ArrayType) && |t.obj| == idx < t.elements
  }

  function FramesOf(tasks: seq<Task>): (frames: seq<Frame>)
    ensures |frames| == |tasks|
    ensures forall k | 0 <= k < |frames| :: frames[k] == Frame(tasks[k].elements, tasks[k].obj)
  {
    seq(|tasks|, k requires 0 <= k < |tasks| => Frame(tasks[k].elements, tasks[k].obj))
  }

  lemma {:induction false} UntilCrPrefix(s: ByteString, n: nat)
    requires n <= |s| && forall k | 0 <= k < n :: s[k] != CR
    ensures UntilCr(s) == s[..n] + UntilCr(s[n..])
  {
    if n > 0 {
      UntilCrPrefix(s[1..], n - 1);
      assert s[1..][n - 1..] == s[n..];
      assert s[..n] == [s[0]] + s[1..][..n - 1];
    } else {
      assert s[0..] == s;
    }
  }

  lemma CompleteRoot(item: Reply)
    ensures Complete([], item) == Root(item)
  {
  }

  /** Completing the innermost array, or adding to it. */
  lemma CompleteStep(outer: seq<Frame>, f: Frame, item: Reply)
    requires forall i | 0 <= i < |outer| :: Unfinished(outer[i])
    requires Unfinished(f)
    ensures Complete(outer + [f], item) ==
      if |f.done| + 1 == f.count then Complete(outer, Array(f.count, f.done + [item]))
      else Inside(outer + [Frame(f.count, f.done + [item])])
  {
    assert (outer + [f])[..|outer|] == outer;
  }

  lemma SliceOfRest(s: ByteString, pos: nat, from: nat, to: nat)
    requires from <= to && pos + to <= |s|
    ensures s[pos..][from..to] == s[pos + from..pos + to]
  {
  }

  ghost predicate Resumed(frames: seq<Frame>, s: ByteString, future: ByteString, token: Token)
    requires forall i | 0 <= i < |frames| :: Unfinished(frames[i])
    requires token.Leaf? || token.Head? ==> 1 + token.size <= |s|
    requires token.Head? ==> token.count > 0
  {
    match token
    case Short => Resume(frames, s) == Incomplete
    case Wrong(e) => Resume(frames, s + future) == Bad(e)
    case Leaf(item, size) => Resume(frames, s + future) == AfterItem(frames, item, s[1 + size..] + future)
    case Head(count, size) => Resume(frames, s + future) == Resume(frames + [Frame(count, [])], s[1 + size..] + future)
  }

  /** What processing the next token means for the whole of what is still to come. */
  lemma AfterToken(frames: seq<Frame>, s: ByteString, future: ByteString)
    requires forall i | 0 <= i < |frames| :: Unfinished(frames[i])
    ensures var token := Next(s, |frames|);
      && (token.Leaf? || token.Head? ==> 1 + token.size <= |s|)
      && Resumed(frames, s, future, token)
  {
    hide Typed;
    var token := Next(s, |frames|);
    if !token.Short? {
      TokenExtends(s, future, |frames|);
    }
    if token.Leaf? || token.Head? {
      assert (s + future)[1 + token.size..] == s[1 + token.size..] + future;
    }
    if token.Head? {
      OpenArray(frames, s + future);
    }
  }

  function Flatten(chunks: seq<ByteString>): ByteString {
    if chunks == [] then [] else chunks[0] + Flatten(chunks[1..])
  }

  /** The reader's fields that an item in progress depends on. */
  datatype Snapshot = Snapshot(ridx: int, tasks: seq<Task>, buf: ByteString, pos: nat)

  const STACK_SIZE: nat := 9
  const DISCARD_AT: nat := 1024

  class Reader {
    var err: Option<ReadError>
    var buf: ByteString
    var pos: nat
    var len: nat
    const rstack: array<Task>
    var ridx: int
    var reply: Option<Reply>

    /** The stack below the current task consists of unfinished arrays. */
    ghost predicate Stacked()
      reads this, rstack
    {
      && rstack.Length == STACK_SIZE && -1 <= ridx < STACK_SIZE
      && pos <= len == |buf|
      && (err.Some? ==> ridx == -1 && buf == [])
      && (forall k | 0 <= k < ridx :: InProgress(rstack[k], rstack[k + 1].idx))
    }

    /** Between calls, no array is ever open at the deepest level. */
    ghost predicate Valid()
      reads this, rstack
    {
      Stacked() && (0 <= ridx == MAX_LEVEL ==> rstack[ridx].ty != Some(ArrayType))
    }

    /** The arrays in progress, outermost first. */
    ghost function Frames(): (frames: seq<Frame>)
      requires Stacked()
      reads this, rstack
      ensures |frames| == if ridx < 0 then 0 else ridx
      ensures forall k | 0 <= k < |frames| :: frames[k] == Frame(rstack[k].elements, rstack[k].obj) && Unfinished(frames[k])
    {
      if ridx < 0 then [] else
        var frames := FramesOf(rstack[..ridx]);
        assert forall k | 0 <= k < |frames| :: Unfinished(frames[k]) by {
          forall k | 0 <= k < |frames| ensures Unfinished(frames[k]) {
            assert InProgress(rstack[k], rstack[k + 1].idx);
          }
        }
        frames
    }

    /** The bytes not yet used up: a type byte already taken counts as unread. */
    ghost function Unread(): ByteString
      requires Stacked()
      reads this, rstack
    {
      (if ridx >= 0 && rstack[ridx].ty.Some? then [ByteOf(rstack[ridx].ty.value)] else []) + buf[pos..]
    }

    constructor ()
      ensures Valid() && fresh(rstack)
      ensures err.None? && reply.None? && ridx == -1 && Unread() == []
    {
      err := None;
      buf, pos, len := [], 0, 0;
      rstack := new Task[STACK_SIZE](_ => Task(None, -1, -1, []));
      ridx := -1;
      reply := None;
    }

    method SetError(e: ReadError)
      requires Stacked()
      modifies this
      ensures Valid()
      ensures err == Some(e) && reply.None?
    {
      reply := None;
      buf := [];
      pos, len := 0, 0;
      ridx := -1;
      err := Some(e);
    }

    method Feed(chunk: ByteString) returns (ok: bool)
      requires Valid()
      modifies this
      ensures Valid() && ridx == old(ridx) && err == old(err) && reply == old(reply)
      ensures ok <==> err.None?
      ensures Frames() == old(Frames())
      ensures Unread() == if ok then old(Unread()) + chunk else old(Unread())
    {
      if err.Some? {
        return false;
      }
      if |chunk| >= 1 {
        buf := buf + chunk;
        len := |buf|;
      }
      return true;
    }

    /** Find the CR LF that ends the line at the cursor; the byte after the buffer is not LF. */
    method SeekNewline() returns (at: Option<nat>)
      requires Stacked()
      ensures at == FindCrlf(buf[pos..])
    {
      var s := buf[pos..];
      var i := 0;
      var last := |s| - 1;
      while i < last
        invariant 0 <= i && (i <= last + 1 || last < 0)
        invariant forall k | 0 <= k < i && k + 1 < |s| :: !(s[k] == CR && s[k + 1] == LF)
        decreases last - i
      {
        while i < last && s[i] != CR
          invariant 0 <= i <= last
          invariant forall k | 0 <= k < i && k + 1 < |s| :: !(s[k] == CR && s[k + 1] == LF)
        {
          i := i + 1;
        }
        if s[i] != CR {
          return None;
        } else if i + 1 < |s| && s[i + 1] == LF {
          CrlfUnique(s, i);
          return Some(i);
        } else {
          i := i + 1;
        }
      }
      return None;
    }
  
    /** readLongLong on the line at the cursor, which ends in CR LF. */
    method ReadLongLong(line: ByteString) returns (v: int)
      ensures v == LongLong(line)
    {
      var i, mult := 0, 1;
      v := 0;
      if line != [] && line[0] == 45 {
        mult := -1;
        i := 1;
      } else if line != [] && line[0] == 43 {
        i := 1;
      }
      ghost var digits, start := line[i..], i;
      while i < |line| && line[i] != CR
        invariant start <= i <= |line|
        invariant forall k | 0 <= k < i - start :: digits[k] != CR
        invariant AllDigits(digits[..i - start]) && v == Value(digits[..i - start])
      {
        var dec := line[i] as int - 48;
        ghost var n := i - start;
        assert digits[..n + 1][..n] == digits[..n];
        if 0 <= dec < 10 {
          v := v * 10;
          v := v + dec;
        } else {
          UntilCrPrefix(digits, n + 1);
          assert UntilCr(digits)[n] == digits[n];
          return -1;
        }
        i := i + 1;
      }
      UntilCrPrefix(digits, i - start);
      assert UntilCr(digits) == digits[..i - start];
      return mult * v;
    }

    /** Take the line at the cursor and move past its CR LF. */
    method ReadLine() returns (line: Option<ByteString>)
      requires Valid()
      modifies this
      ensures Valid() && ridx == old(ridx) && err == old(err) && reply == old(reply)
      ensures Frames() == old(Frames())
      ensures match FindCrlf(old(buf[pos..]))
              case None => line.None? && pos == old(pos) && buf == old(buf)
              case Some(n) => line == Some(old(buf[pos..])[..n]) && pos == old(pos) + n + 2 && buf == old(buf)
    {
      var n := SeekNewline();
      if n.None? {
        return None;
      }
      assert buf[pos..][..n.value] == buf[pos..pos + n.value];
      line := Some(buf[pos..pos + n.value]);
      pos := pos + n.value + 2;
    }

    /**
     * The current item is finished: hand its reply to the parent array and pop every array that is
     * complete with it. An empty stack means the root reply is complete.
     */
    method MoveToNextTask(item: Reply) returns (root: Option<Reply>)
      requires Valid() && ridx >= 0 && err.None?
      modifies this`ridx, rstack
      ensures Valid() && err.None?
      ensures match Complete(old(Frames()), item)
              case Root(r) => root == Some(r) && ridx == -1
              case Inside(frames) => root.None? && ridx >= 0 && rstack[ridx].ty.None? && Frames() == frames
    {
      hide Complete;
      var done := item;
      while ridx >= 0
        invariant Valid() && err.None?
        invariant ridx >= 0 && Complete(Frames(), done) == Complete(old(Frames()), item)
        decreases ridx
      {
        if ridx == 0 {
          CompleteRoot(done);
          assert Frames() == [];
          ridx := ridx - 1;
          return Some(done);
        }
        var cur, prv := rstack[ridx], rstack[ridx - 1];
        assert prv.ty == Some(ArrayType);
        ghost var frames, f := Frames(), Frame(prv.elements, prv.obj);
        ghost var outer := frames[..ridx - 1];
        assert frames == outer + [f];
        CompleteStep(outer, f, done);
        if cur.idx == prv.elements - 1 {
          done := Array(prv.elements, prv.obj + [done]);
          ridx := ridx - 1;
          assert Frames() == outer;
        } else {
          assert cur.idx < prv.elements;
          NextElement(done, outer);
          return None;
        }
      }
      return None;
    }

    /** The parent array takes the item and its next element is due. */
    method NextElement(item: Reply, ghost outer: seq<Frame>)
      requires Valid() && ridx > 0 && rstack[ridx].idx < rstack[ridx - 1].elements - 1
      requires Frames() == outer + [Frame(rstack[ridx - 1].elements, rstack[ridx - 1].obj)]
      modifies rstack
      ensures Valid() && rstack[ridx].ty.None?
      ensures Frames() == outer + [Frame(old(rstack[ridx - 1].elements), old(rstack[ridx - 1].obj) + [item])]
    {
      var cur, prv := rstack[ridx], rstack[ridx - 1];
      rstack[ridx - 1] := prv.(obj := prv.obj + [item]);
      rstack[ridx] := Task(None, -1, cur.idx + 1, []);
      assert Frames() == outer + [Frame(prv.elements, prv.obj + [item])];
    }
  
    /** item has been handed on: it completed the root reply, or another element is next. */
    ghost predicate HandedOn(frames: seq<Frame>, item: Reply)
      requires forall i | 0 <= i < |frames| :: Unfinished(frames[i])
      reads this, rstack
    {
      && Valid() && err.None?
      && match Complete(frames, item)
         case Root(r) => reply == Some(r) && ridx == -1
         case Inside(frames') => reply.None? && ridx >= 0 && rstack[ridx].ty.None? && Frames() == frames'
    }

    method FinishItem(item: Reply)
      requires Valid() && ridx >= 0 && err.None? && reply.None?
      modifies this`ridx, this`reply, rstack
      ensures HandedOn(old(Frames()), item)
    {
      var root := MoveToNextTask(item);
      if root.Some? {
        reply := root;
      }
    }

    /** Nothing was used up: the current item needs more bytes. */
    ghost predicate Unmoved(before: Snapshot)
      reads this, rstack
    {
      && Valid() && err.None? && reply.None?
      && ridx == before.ridx && rstack[..] == before.tasks && buf == before.buf && pos == before.pos
    }

    ghost function Now(): Snapshot
      reads this, rstack
    {
      Snapshot(ridx, rstack[..], buf, pos)
    }

    /** What processing a token does: use it up and hand on or push, or stay, or fail. */
    ghost predicate Took(ok: bool, token: Token, frames: seq<Frame>, before: Snapshot)
      requires forall i | 0 <= i < |frames| :: Unfinished(frames[i])
      reads this, rstack
    {
      match token
      case Leaf(item, size) => ok && HandedOn(frames, item) && buf == before.buf && pos == before.pos + size
      case Head(count, size) => ok && Pushed(frames, count) && buf == before.buf && pos == before.pos + size
      case Short => !ok && Unmoved(before)
      case Wrong(e) => !ok && Valid() && err == Some(e) && reply.None?
    }

    /** A new array is open and its first element is next. */
    ghost predicate Pushed(frames: seq<Frame>, count: int)
      reads this, rstack
    {
      && Valid() && err.None? && reply.None? && ridx >= 0
      && rstack[ridx].ty.None? && Frames() == frames + [Frame(count, [])]
    }

    ghost predicate Reading(t: ReplyType)
      reads this, rstack
    {
      Valid() && err.None? && reply.None? && ridx >= 0 && rstack[ridx].ty == Some(t)
    }

    method ProcessLineItem(t: ReplyType) returns (ok: bool)
      requires Reading(t) && (t.ErrorType? || t.StatusType? || t.IntegerType?)
      modifies this, rstack
      ensures Took(ok, Typed(t, old(buf[pos..]), old(ridx)), old(Frames()), old(Now()))
    {
      var line := ReadLine();
      if line.None? {
        return false;
      }
      var obj;
      if t.IntegerType? {
        var v := ReadLongLong(line.value);
        obj := Integer(v);
      } else {
        obj := if t.ErrorType? then Error(line.value) else Status(line.value);
      }
      FinishItem(obj);
      return true;
    }

    method ProcessBulkItem() returns (ok: bool)
      requires Reading(StringType)
      modifies this, rstack
      ensures Took(ok, Typed(StringType, old(buf[pos..]), old(ridx)), old(Frames()), old(Now()))
    {
      hide Complete, LongLong, FramesOf;
      ghost var token := Typed(StringType, buf[pos..], ridx);
      var n := SeekNewline();
      if n.None? {
        return false;
      }
      SliceOfRest(buf, pos, 0, n.value);
      var bytelen := n.value + 2; // include CR LF
      var length := ReadLongLong(buf[pos..pos + n.value]);
      var obj;
      if length < 0 {
        obj := Nil;
      } else {
        bytelen := bytelen + length + 2; // include CR LF
        if pos + bytelen > len {
          return false;
        }
        SliceOfRest(buf, pos, n.value + 2, n.value + 2 + length);
        obj := Bulk(buf[pos + n.value + 2..pos + n.value + 2 + length]);
      }
      assert token == Leaf(obj, bytelen);
      hide Typed;
      pos := pos + bytelen;
      FinishItem(obj);
      return true;
    }

    /** An array's head: hand on a nil or an empty array, or push a task for the first element. */
    method ProcessMultiBulkItem() returns (ok: bool)
      requires Stacked() && err.None? && reply.None? && ridx >= 0 && rstack[ridx].ty == Some(ArrayType)
      modifies this, rstack
      ensures Took(ok, Typed(ArrayType, old(buf[pos..]), old(ridx)), old(Frames()), old(Now()))
    {
      hide Complete, LongLong;
      if ridx == MAX_LEVEL {
        SetError(TooDeep);
        return false;
      }
      ghost var frames := Frames();
      var line := ReadLine();
      if line.None? {
        return false;
      }
      var elements := ReadLongLong(line.value);
      if elements == -1 {
        FinishItem(Nil);
      } else if elements > 0 {
        rstack[ridx] := rstack[ridx].(elements := elements, obj := []);
        ridx := ridx + 1;
        rstack[ridx] := Task(None, -1, 0, []);
        assert Frames() == frames + [Frame(elements, [])];
      } else {
        FinishItem(Array(elements, []));
      }
      return true;
    }

    /** Take the type byte of the current item, unless that was done before. */
    method TakeType() returns (ok: bool)
      requires Valid() && err.None? && reply.None? && ridx >= 0
      modifies this, rstack
      ensures !ok ==> Valid()
      ensures ok ==> Stacked() && err.None? && reply.None? && ridx >= 0 && rstack[ridx].ty.Some?
      ensures err.None? ==> Stacked() && ridx == old(ridx) && Frames() == old(Frames()) && Unread() == old(Unread())
      ensures !ok && err.None? ==> reply.None? && old(Unread()) == []
      ensures !ok && err.Some? ==> reply.None? && old(Unread()) != [] && TypeOf(old(Unread())[0]).None?
      ensures !ok && err.Some? ==> err == Some(TypeByte(old(Unread())[0]))
    {
      var cur := rstack[ridx];
      if cur.ty.Some? {
        return true;
      }
      if len - pos < 1 {
        return false; // could not consume 1 byte
      }
      var p := buf[pos];
      pos := pos + 1;
      if TypeOf(p).None? {
        SetError(TypeByte(p));
        return false;
      }
      ghost var frames := Frames();
      rstack[ridx] := cur.(ty := TypeOf(p));
      assert Frames() == frames;
      return true;
    }

    method ProcessTyped() returns (ok: bool)
      requires Stacked() && err.None? && reply.None? && ridx >= 0 && rstack[ridx].ty.Some?
      modifies this, rstack
      ensures Took(ok, Typed(old(rstack[ridx]).ty.value, old(buf[pos..]), old(ridx)), old(Frames()), old(Now()))
    {
      match rstack[ridx].ty.value {
        case StringType => ok := ProcessBulkItem();
        case ArrayType => ok := ProcessMultiBulkItem();
        case t => ok := ProcessLineItem(t);
      }
    }

    /** What processing one item does, in terms of the next token of the unread bytes. */
    ghost predicate Processed(ok: bool, frames: seq<Frame>, unread: ByteString)
      requires forall i | 0 <= i < |frames| :: Unfinished(frames[i])
      reads this, rstack
    {
      && Valid()
      && match Next(unread, |frames|)
         case Leaf(item, size) =>
           ok && HandedOn(frames, item) && 1 + size <= |unread| && Unread() == unread[1 + size..]
         case Head(count, size) =>
           ok && Pushed(frames, count) && 1 + size <= |unread| && Unread() == unread[1 + size..]
         case Short => !ok && err.None? && reply.None? && ridx >= 0 && Frames() == frames && Unread() == unread
         case Wrong(e) => !ok && err == Some(e) && reply.None?
    }

    /** Read one item: its type byte, and then what the type calls for. */
    method ProcessItem() returns (ok: bool)
      requires Valid() && err.None? && reply.None? && ridx >= 0
      modifies this, rstack
      ensures Processed(ok, old(Frames()), old(Unread()))
    {
      hide Typed, Complete, FramesOf;
      ghost var frames, unread := Frames(), Unread();
      ok := TakeType();
      if !ok {
        return;
      }
      ghost var t, rest := rstack[ridx].ty.value, buf[pos..];
      assert unread == [ByteOf(t)] + rest && unread[1..] == rest;
      assert Next(unread, |frames|) == Typed(t, rest, ridx);
      ok := ProcessTyped();
    }
  
    /** Between calls there is no finished reply waiting. */
    ghost predicate Quiet()
      reads this, rstack
    {
      Valid() && reply.None?
    }

    /**
     * Emit the next reply if it is all there. Whatever bytes may follow, the replies still to come
     * are those of the stream as it was, less the reply emitted; an error is the stream's error;
     * and without either, the current item really needs more bytes.
     */
    method GetReply(ghost future: ByteString) returns (ok: bool, r: Option<Reply>)
      requires Quiet()
      modifies this, rstack
      ensures Quiet() && (ok <==> err.None?)
      ensures old(err.Some?) ==> err == old(err) && r.None?
      ensures old(err.None?) && err.Some? ==>
        ResumeAll(old(Frames()), old(Unread()) + future) == Outcome([], err)
      ensures err.Some? ==> r.None?
      ensures r.Some? ==> Frames() == [] && |Unread()| < |old(Unread())|
      ensures r.Some? ==> ResumeAll(old(Frames()), old(Unread()) + future) == Prepend([r.value], ResumeAll([], Unread() + future))
      ensures r.None? && err.None? ==> Resume(Frames(), Unread()) == Incomplete
      ensures r.None? && err.None? ==>
        ResumeAll(old(Frames()), old(Unread()) + future) == ResumeAll(Frames(), Unread() + future)
    {
      hide Complete, Resume, Next, FramesOf;
      ghost var frames, unread := Frames(), Unread();
      if err.Some? {
        return false, None;
      }
      if len == 0 {
        NothingToRead(frames, unread);
        return true, None;
      }
      if ridx == -1 {
        rstack[0] := Task(None, -1, -1, []);
        ridx := 0;
      }
      assert Frames() == frames && Unread() == unread;
      ProcessItems(future);
      if err.Some? {
        return false, None;
      }
      if pos >= DISCARD_AT {
        buf := buf[pos..];
        pos := 0;
        len := |buf|;
      }
      ok := true;
      r := None;
      if ridx == -1 {
        r := reply;
        reply := None;
        ResumeNothing(Unread() + future);
      }
    }

    /** With no byte in the buffer, at most a type byte was taken, and that is no token. */
    lemma NothingToRead(frames: seq<Frame>, unread: ByteString)
      requires Valid() && err.None? && len == 0 && frames == Frames() && unread == Unread()
      ensures Resume(frames, unread) == Incomplete
    {
    }

    /** Process items until the root reply is complete or the next item is not. */
    method ProcessItems(ghost future: ByteString)
      requires Valid() && err.None? && reply.None? && ridx >= 0
      modifies this, rstack
      ensures Valid()
      ensures err.Some? ==> reply.None? && Resume(old(Frames()), old(Unread()) + future) == Bad(err.value)
      ensures err.None? && ridx >= 0 ==> reply.None? && Resume(Frames(), Unread()) == Incomplete
      ensures err.None? && ridx >= 0 ==> Resume(old(Frames()), old(Unread()) + future) == Resume(Frames(), Unread() + future)
      ensures err.None? && ridx == -1 ==> reply.Some? && |Unread()| < |old(Unread())|
      ensures err.None? && ridx == -1 ==> Resume(old(Frames()), old(Unread()) + future) == Done(reply.value, Unread() + future)
    {
      hide Complete, Resume, Next, FramesOf;
      ghost var frames, unread := Frames(), Unread();
      var ok := true;
      while ridx >= 0 && ok
        invariant Valid() && |Unread()| <= |unread|
        invariant err.Some? ==> !ok && reply.None? && Resume(frames, unread + future) == Bad(err.value)
        invariant err.None? && ridx >= 0 ==> reply.None? && (ok || Resume(Frames(), Unread()) == Incomplete)
        invariant err.None? && ridx >= 0 ==> Resume(frames, unread + future) == Resume(Frames(), Unread() + future)
        invariant err.None? && ridx == -1 ==> reply.Some? && |Unread()| < |unread|
        invariant err.None? && ridx == -1 ==> Resume(frames, unread + future) == Done(reply.value, Unread() + future)
        decreases |Unread()|, ok
      {
        AfterToken(Frames(), Unread(), future);
        ok := ProcessItem();
      }
    }
  
    /** Emit replies until there is none, as a client does after each feed. */
    method Drain(ghost future: ByteString) returns (ok: bool, replies: seq<Reply>)
      requires Quiet() && err.None?
      modifies this, rstack
      ensures Quiet() && (ok <==> err.None?)
      ensures !ok ==> ResumeAll(old(Frames()), old(Unread()) + future) == Outcome(replies, err)
      ensures ok ==> Resume(Frames(), Unread()) == Incomplete
      ensures ok ==>
        ResumeAll(old(Frames()), old(Unread()) + future) == Prepend(replies, ResumeAll(Frames(), Unread() + future))
    {
      hide Resume, ResumeAll, FramesOf;
      ghost var whole := ResumeAll(Frames(), Unread() + future);
      replies := [];
      while true
        invariant Quiet() && err.None? && whole == Prepend(replies, ResumeAll(Frames(), Unread() + future))
        decreases |Unread()|
      {
        var r;
        ghost var before := ResumeAll(Frames(), Unread() + future);
        ok, r := GetReply(future);
        if !ok {
          assert before == Outcome([], err) && replies + [] == replies;
          return;
        }
        if r.None? {
          return;
        }
        ghost var after := ResumeAll(Frames(), Unread() + future);
        assert before == Prepend([r.value], after);
        assert replies + ([r.value] + after.replies) == (replies + [r.value]) + after.replies;
        replies := replies + [r.value];
      }
    }
  }

  /**
   * Streaming equals batch: whatever pieces a stream is fed in, draining the reader after every
   * piece emits exactly the replies, and stops at exactly the error, of the recursive parser.
   */
  method ReadStream(chunks: seq<ByteString>) returns (replies: seq<Reply>, error: Option<ReadError>)
    ensures Outcome(replies, error) == ParseAll(Flatten(chunks))
  {
    hide Resume, ResumeAll, FramesOf, ParseAll;
    var reader := new Reader();
    replies := [];
    NothingRead(Flatten(chunks));
    assert chunks[0..] == chunks;
    for i := 0 to |chunks|
      invariant reader.Quiet() && reader.err.None? && fresh(reader) && fresh(reader.rstack)
      invariant StillToCome(chunks, i, replies, reader.Frames(), reader.Unread())
    {
      ghost var future := Flatten(chunks[i + 1..]);
      ghost var frames, unread, before := reader.Frames(), reader.Unread(), replies;
      var ok := reader.Feed(chunks[i]);
      var more;
      ok, more := reader.Drain(future);
      replies := replies + more;
      ReadChunk(chunks, i, before, frames, unread, more,
                if ok then ResumeAll(reader.Frames(), reader.Unread() + future) else Outcome([], reader.err));
      if !ok {
        return replies, reader.err;
      }
    }
    StreamEnds(chunks, replies, reader.Frames(), reader.Unread());
    return replies, None;
  }

  /** i pieces have been read: the replies so far, and what the reader makes of the rest, are the whole. */
  ghost predicate StillToCome(chunks: seq<ByteString>, i: nat, replies: seq<Reply>, frames: seq<Frame>, unread: ByteString)
    requires i <= |chunks| && forall k | 0 <= k < |frames| :: Unfinished(frames[k])
  {
    && Resume(frames, unread) == Incomplete
    && ParseAll(Flatten(chunks)) == Prepend(replies, ResumeAll(frames, unread + Flatten(chunks[i..])))
  }

  lemma NothingRead(s: ByteString)
    ensures Resume([], []) == Incomplete
    ensures ParseAll(s) == Prepend([], ResumeAll([], [] + s))
  {
    ResumeNothing(s);
    assert [] + s == s;
  }

  lemma ReadChunk(chunks: seq<ByteString>, i: nat, replies: seq<Reply>, frames: seq<Frame>, unread: ByteString,
                  more: seq<Reply>, after: Outcome)
    requires i < |chunks| && forall k | 0 <= k < |frames| :: Unfinished(frames[k])
    requires StillToCome(chunks, i, replies, frames, unread)
    requires ResumeAll(frames, unread + chunks[i] + Flatten(chunks[i + 1..])) == Prepend(more, after)
    ensures ParseAll(Flatten(chunks)) == Prepend(replies + more, after)
  {
    hide Resume, ResumeAll, ParseAll;
    assert chunks[i..][1..] == chunks[i + 1..];
    assert unread + (chunks[i] + Flatten(chunks[i + 1..])) == unread + chunks[i] + Flatten(chunks[i + 1..]);
    assert replies + (more + after.replies) == replies + more + after.replies;
  }

  lemma StreamEnds(chunks: seq<ByteString>, replies: seq<Reply>, frames: seq<Frame>, unread: ByteString)
    requires forall k | 0 <= k < |frames| :: Unfinished(frames[k])
    requires StillToCome(chunks, |chunks|, replies, frames, unread)
    ensures ParseAll(Flatten(chunks)) == Outcome(replies, None)
  {
    hide Resume, ParseAll;
    assert unread + Flatten(chunks[|chunks|..]) == unread;
    assert replies + [] == replies;
  }
}
