/**
 * The Redis reply protocol: replies, a token at a time, and the plain recursive parser of a whole
 * byte stream that the incremental reader must agree with.
 */
module Resp {
  import opened Bytes
  import opened Decimal

  const CR: byte := 13
  const LF: byte := 10

  datatype Option<+T> = None | Some(value: T)

  /** An array keeps the element count it was announced with; only a positive count has elements. */
  datatype Reply =
    | Status(text: ByteString)
    | Error(text: ByteString)
    | Integer(value: int)
    | Bulk(text: ByteString)
    | Nil
    | Array(count: int, elements: seq<Reply>)

  datatype ReadError = TypeByte(b: byte) | TooDeep

  datatype ReplyType = ErrorType | StatusType | IntegerType | StringType | ArrayType

  /** Array replies nest seven deep; the eighth array level is refused. */
  const MAX_LEVEL: nat := 8

  function TypeOf(b: byte): Option<ReplyType> {
    if b == 45 then Some(ErrorType)        // -
    else if b == 43 then Some(StatusType)  // +
    else if b == 58 then Some(IntegerType) // :
    else if b == 36 then Some(StringType)  // $
    else if b == 42 then Some(ArrayType)   // *
    else None
  }

  function ByteOf(t: ReplyType): (b: byte)
    ensures TypeOf(b) == Some(t)
  {
    match t
    case ErrorType => 45
    case StatusType => 43
    case IntegerType => 58
    case StringType => 36
    case ArrayType => 42
  }

  // ----- Lines and numbers -----

  /** n is the position of the first CR LF of s. */
  predicate CrlfAt(s: ByteString, n: nat) {
    && n + 1 < |s| && s[n] == CR && s[n + 1] == LF
    && forall k | 0 <= k < n :: !(s[k] == CR && s[k + 1] == LF)
  }

  function FindCrlf(s: ByteString): (r: Option<nat>)
    ensures r.Some? ==> CrlfAt(s, r.value)
    ensures r.None? ==> forall k | 0 <= k < |s| - 1 :: !(s[k] == CR && s[k + 1] == LF)
  {
    FindCrlfFrom(s, 0)
  }

  function FindCrlfFrom(s: ByteString, from: nat): (r: Option<nat>)
    requires from <= |s| && forall k | 0 <= k < from && k + 1 < |s| :: !(s[k] == CR && s[k + 1] == LF)
    ensures r.Some? ==> CrlfAt(s, r.value)
    ensures r.None? ==> forall k | 0 <= k < |s| - 1 :: !(s[k] == CR && s[k + 1] == LF)
    decreases |s| - from
  {
    if from + 1 >= |s| then None
    else if s[from] == CR && s[from + 1] == LF then Some(from)
    else FindCrlfFrom(s, from + 1)
  }

  lemma CrlfUnique(s: ByteString, n: nat)
    requires CrlfAt(s, n)
    ensures FindCrlf(s) == Some(n)
  {
    assert FindCrlf(s).Some?;
  }

  /** The bytes before the first CR. */
  function UntilCr(s: ByteString): ByteString {
    if s == [] || s[0] == CR then [] else [s[0]] + UntilCr(s[1..])
  }

  /** The number a line starts with: an optional sign and digits up to a CR; -1 for anything else. */
  function LongLong(s: ByteString): int {
    if s != [] && s[0] == 45 then
      var d := UntilCr(s[1..]);
      if AllDigits(d) then 0 - Value(d) else -1
    else
      var d := UntilCr(if s != [] && s[0] == 43 then s[1..] else s);
      if AllDigits(d) then Value(d) else -1
  }

  // ----- Tokens -----

  /** One step of reading: a whole leaf reply, the head of a non-empty array, or why there is none. */
  datatype Token =
    | Leaf(reply: Reply, size: nat)
    | Head(count: int, size: nat)
    | Short
    | Wrong(error: ReadError)

  function LineReply(t: ReplyType, line: ByteString): Reply {
    match t
    case ErrorType => Error(line)
    case StatusType => Status(line)
    case _ => Integer(LongLong(line))
  }

  /** The token after type byte t, at the given nesting level; sizes count the bytes after t. */
  function Typed(t: ReplyType, s: ByteString, level: nat): (token: Token)
    ensures token.Leaf? || token.Head? ==> token.size <= |s|
    ensures token.Head? ==> token.count > 0 && level < MAX_LEVEL
  {
    if t.ArrayType? && level >= MAX_LEVEL then Wrong(TooDeep)
    else match FindCrlf(s)
      case None => Short
      case Some(n) =>
        match t
        case StringType =>
          var len := LongLong(s[..n]);
          if len < 0 then Leaf(Nil, n + 2)
          else if n + 2 + len + 2 <= |s| then Leaf(Bulk(s[n + 2..n + 2 + len]), n + 2 + len + 2)
          else Short
        case ArrayType =>
          var count := LongLong(s[..n]);
          if count == -1 then Leaf(Nil, n + 2)
          else if count > 0 then Head(count, n + 2)
          else Leaf(Array(count, []), n + 2)
        case _ => Leaf(LineReply(t, s[..n]), n + 2)
  }

  function Next(s: ByteString, level: nat): Token {
    if s == [] then Short
    else match TypeOf(s[0])
      case None => Wrong(TypeByte(s[0]))
      case Some(t) => Typed(t, s[1..], level)
  }

  // ----- The recursive parser -----

  datatype Parse<+T> = Done(value: T, rest: ByteString) | Incomplete | Bad(error: ReadError)

  function ParseItem(s: ByteString, level: nat): (p: Parse<Reply>)
    ensures p.Done? ==> |p.rest| < |s|
    decreases |s|, 0
  {
    match Next(s, level)
    case Short => Incomplete
    case Wrong(e) => Bad(e)
    case Leaf(reply, size) => Done(reply, s[1 + size..])
    case Head(count, size) =>
      match ParseItems(s[1 + size..], level + 1, count)
      case Incomplete => Incomplete
      case Bad(e) => Bad(e)
      case Done(elements, rest) => Done(Array(count, elements), rest)
  }

  /** n items in a row. */
  function ParseItems(s: ByteString, level: nat, n: nat): (p: Parse<seq<Reply>>)
    ensures p.Done? ==> |p.rest| <= |s| && |p.value| == n
    decreases |s|, 1
  {
    if n == 0 then Done([], s)
    else match ParseItem(s, level)
      case Incomplete => Incomplete
      case Bad(e) => Bad(e)
      case Done(first, rest) => Cons(first, ParseItems(rest, level, n - 1))
  }

  function Cons(first: Reply, others: Parse<seq<Reply>>): Parse<seq<Reply>> {
    match others
    case Done(value, rest) => Done([first] + value, rest)
    case _ => others
  }

  /** What a stream amounts to: its replies, then either more is needed or it went wrong. */
  datatype Outcome = Outcome(replies: seq<Reply>, error: Option<ReadError>)

  function Prepend(replies: seq<Reply>, o: Outcome): Outcome {
    Outcome(replies + o.replies, o.error)
  }

  function ParseAll(s: ByteString): Outcome
    decreases |s|
  {
    match ParseItem(s, 0)
    case Incomplete => Outcome([], None)
    case Bad(e) => Outcome([], Some(e))
    case Done(reply, rest) => Prepend([reply], ParseAll(rest))
  }

  // ----- Stopping in the middle -----

  /** An array in progress: how many elements it has, and those read so far. */
  datatype Frame = Frame(count: int, done: seq<Reply>)

  predicate Unfinished(f: Frame) {
    |f.done| < f.count
  }

  datatype Progress = Root(reply: Reply) | Inside(frames: seq<Frame>)

  /** Hand a finished reply to the innermost array, closing every array it completes. */
  function Complete(frames: seq<Frame>, reply: Reply): (p: Progress)
    requires forall i | 0 <= i < |frames| :: Unfinished(frames[i])
    ensures p.Inside? ==> 0 < |p.frames| <= |frames| && forall i | 0 <= i < |p.frames| :: Unfinished(p.frames[i])
    ensures p.Root? <== frames == []
  {
    if frames == [] then Root(reply)
    else
      var outer, f := frames[..|frames| - 1], frames[|frames| - 1];
      if |f.done| + 1 == f.count then Complete(outer, Array(f.count, f.done + [reply]))
      else
        var inner := Frame(f.count, f.done + [reply]);
        assert Unfinished(frames[|frames| - 1]);
        assert forall i | 0 <= i < |outer| :: Unfinished(outer[i]) by {
          assert forall i | 0 <= i < |outer| :: outer[i] == frames[i];
        }
        Inside(outer + [inner])
  }

  /** Finish the current item inside the open arrays, and then the arrays. */
  function Resume(frames: seq<Frame>, s: ByteString): (p: Parse<Reply>)
    requires forall i | 0 <= i < |frames| :: Unfinished(frames[i])
    ensures p.Done? ==> |p.rest| < |s|
    decreases |s|, 0
  {
    match ParseItem(s, |frames|)
    case Incomplete => Incomplete
    case Bad(e) => Bad(e)
    case Done(reply, rest) => AfterItem(frames, reply, rest)
  }

  function AfterItem(frames: seq<Frame>, reply: Reply, rest: ByteString): (p: Parse<Reply>)
    requires forall i | 0 <= i < |frames| :: Unfinished(frames[i])
    ensures p.Done? ==> |p.rest| <= |rest|
    decreases |rest|, 1
  {
    match Complete(frames, reply)
    case Root(root) => Done(root, rest)
    case Inside(frames') => Resume(frames', rest)
  }

  /** The rest of a stream, read on from open arrays. */
  function ResumeAll(frames: seq<Frame>, s: ByteString): Outcome
    requires forall i | 0 <= i < |frames| :: Unfinished(frames[i])
  {
    match Resume(frames, s)
    case Incomplete => Outcome([], None)
    case Bad(e) => Outcome([], Some(e))
    case Done(reply, rest) => Prepend([reply], ParseAll(rest))
  }

  /** With no array open this is just parsing. */
  lemma ResumeNothing(s: ByteString)
    ensures ResumeAll([], s) == ParseAll(s)
  {
    var frames: seq<Frame> := [];
    assert Resume(frames, s) == ParseItem(s, 0) by {
      if ParseItem(s, |frames|).Done? {
        assert Complete(frames, ParseItem(s, 0).value) == Root(ParseItem(s, 0).value);
      }
    }
  }

  /** A token, once complete, does not change when more bytes arrive. */
  lemma TokenExtends(s: ByteString, more: ByteString, level: nat)
    requires !Next(s, level).Short?
    ensures Next(s + more, level) == Next(s, level)
  {
    assert (s + more)[0] == s[0] && (s + more)[1..] == s[1..] + more;
    if TypeOf(s[0]).Some? {
      TypedExtends(TypeOf(s[0]).value, s[1..], more, level);
    }
  }

  lemma TypedExtends(t: ReplyType, s: ByteString, more: ByteString, level: nat)
    requires !Typed(t, s, level).Short?
    ensures Typed(t, s + more, level) == Typed(t, s, level)
  {
    if FindCrlf(s).Some? {
      var n := FindCrlf(s).value;
      assert CrlfAt(s + more, n);
      CrlfUnique(s + more, n);
      assert (s + more)[..n] == s[..n];
      var len := LongLong(s[..n]);
      if t.StringType? && len >= 0 {
        assert (s + more)[n + 2..n + 2 + len] == s[n + 2..n + 2 + len];
      }
    }
  }

  /** Fill the innermost array with its missing elements and go on. */
  function Fill(outer: seq<Frame>, f: Frame, items: Parse<seq<Reply>>): Parse<Reply>
    requires forall i | 0 <= i < |outer| :: Unfinished(outer[i])
  {
    match items
    case Incomplete => Incomplete
    case Bad(e) => Bad(e)
    case Done(others, rest) => AfterItem(outer, Array(f.count, f.done + others), rest)
  }

  lemma AfterInside(outer: seq<Frame>, f: Frame, reply: Reply, rest: ByteString)
    requires forall i | 0 <= i < |outer| :: Unfinished(outer[i])
    requires Unfinished(f)
    ensures var f' := Frame(f.count, f.done + [reply]);
            AfterItem(outer + [f], reply, rest) ==
              if Unfinished(f') then Resume(outer + [f'], rest)
              else AfterItem(outer, Array(f.count, f'.done), rest)
  {
    assert (outer + [f])[..|outer|] == outer;
  }

  /** The elements still missing from an array, read one by one, are what the recursive parser reads. */
  lemma {:induction false} ResumeInside(outer: seq<Frame>, f: Frame, s: ByteString)
    requires forall i | 0 <= i < |outer| :: Unfinished(outer[i])
    requires Unfinished(f)
    ensures Resume(outer + [f], s) == Fill(outer, f, ParseItems(s, |outer| + 1, f.count - |f.done|))
    decreases |s|
  {
    hide Next;
    var level := |outer| + 1;
    if ParseItem(s, level).Done? {
      var reply, rest := ParseItem(s, level).value, ParseItem(s, level).rest;
      var f' := Frame(f.count, f.done + [reply]);
      var items := ParseItems(rest, level, f.count - |f'.done|);
      AfterInside(outer, f, reply, rest);
      if Unfinished(f') {
        ResumeInside(outer, f', rest);
      } else {
        assert f'.done + [] == f'.done;
        assert Fill(outer, f', items) == AfterItem(outer, Array(f.count, f'.done), rest);
      }
      FillCons(outer, f, reply, items);
    }
  }

  lemma FillCons(outer: seq<Frame>, f: Frame, reply: Reply, items: Parse<seq<Reply>>)
    requires forall i | 0 <= i < |outer| :: Unfinished(outer[i])
    ensures Fill(outer, Frame(f.count, f.done + [reply]), items) == Fill(outer, f, Cons(reply, items))
  {
    if items.Done? {
      assert f.done + [reply] + items.value == f.done + ([reply] + items.value);
    }
  }

  /** An array is its head and then its elements. */
  lemma HeadItem(s: ByteString, level: nat)
    requires Next(s, level).Head?
    ensures 1 + Next(s, level).size <= |s| && Next(s, level).count > 0
    ensures var token := Next(s, level);
            ParseItem(s, level) == match ParseItems(s[1 + token.size..], level + 1, token.count)
                                   case Incomplete => Incomplete
                                   case Bad(e) => Bad(e)
                                   case Done(elements, rest) => Done(Array(token.count, elements), rest)
  {
  }

  /** Reading an array's head and going on inside it is reading the array. */
  lemma OpenArray(frames: seq<Frame>, s: ByteString)
    requires forall i | 0 <= i < |frames| :: Unfinished(frames[i])
    requires Next(s, |frames|).Head?
    ensures var token := Next(s, |frames|);
            Resume(frames, s) == Resume(frames + [Frame(token.count, [])], s[1 + token.size..])
  {
    hide Next, ParseItem, ParseItems, AfterItem;
    HeadItem(s, |frames|);
    var token := Next(s, |frames|);
    var rest := s[1 + token.size..];
    ResumeInside(frames, Frame(token.count, []), rest);
    var items := ParseItems(rest, |frames| + 1, token.count);
    assert items.Done? ==> [] + items.value == items.value;
  }
}
