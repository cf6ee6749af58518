/**
 * The reply format in literal bytes, apart from the parser: how a server writes each reply, and that
 * the parser and the reader read exactly that reply back.
 */
module ReplyFormat {
  import opened Bytes
  import opened Decimal
  import opened Resp
  import RespReader

  /** Decimal text with a minus sign below zero. */
  function IntText(i: int): ByteString {
    if i < 0 then [45] + Digits(-i) else Digits(i)
  }

  /** + text, - text, : number, $ length and bytes, $-1 for nil, * count and elements. */
  function Text(r: Reply): ByteString
    decreases r, 0
  {
    match r
    case Status(text) => [43] + text + [13, 10]
    case Error(text) => [45] + text + [13, 10]
    case Integer(value) => [58] + IntText(value) + [13, 10]
    case Bulk(text) => [36] + IntText(|text|) + [13, 10] + text + [13, 10]
    case Nil => [36, 45, 49, 13, 10]
    case Array(count, elements) => [42] + IntText(|elements|) + [13, 10] + Texts(elements)
  }

  function Texts(rs: seq<Reply>): ByteString
    decreases rs, 0
  {
    if rs == [] then [] else Text(rs[0]) + Texts(rs[1..])
  }

  /** No CR LF in a line, counts that are the number of elements, and at most `depth` arrays in each other. */
  predicate Writable(r: Reply, depth: int)
    decreases r, 0
  {
    match r
    case Status(text) => OneLine(text)
    case Error(text) => OneLine(text)
    case Array(count, elements) => depth > 0 && count == |elements| && AllWritable(elements, depth - 1)
    case _ => true
  }

  predicate AllWritable(rs: seq<Reply>, depth: int)
    decreases rs, 0
  {
    forall i | 0 <= i < |rs| :: Writable(rs[i], depth)
  }

  predicate OneLine(text: ByteString) {
    forall k | 0 <= k < |text| - 1 :: !(text[k] == 13 && text[k + 1] == 10)
  }

  // ----- Lines -----

  lemma LineEnds(line: ByteString, rest: ByteString)
    requires OneLine(line)
    ensures FindCrlf(line + [13, 10] + rest) == Some(|line|)
    ensures (line + [13, 10] + rest)[..|line|] == line && (line + [13, 10] + rest)[|line| + 2..] == rest
  {
    var s := line + [13, 10] + rest;
    assert forall k | 0 <= k < |line| :: s[k] == line[k];
    assert s[|line|] == 13 && s[|line| + 1] == 10;
    assert CrlfAt(s, |line|);
    CrlfUnique(s, |line|);
  }

  lemma DigitsEnd(n: nat)
    ensures OneLine(Digits(n)) && UntilCr(Digits(n)) == Digits(n) && Digits(n)[0] != 45 && Digits(n)[0] != 43
    ensures Value(Digits(n)) == n
  {
    var d := Digits(n);
    RespReader.UntilCrPrefix(d, |d|);
    ValueOfDigits(n);
    assert forall k | 0 <= k < |d| :: IsDigit(d[k]);
  }

  lemma IntLine(i: int)
    ensures OneLine(IntText(i)) && LongLong(IntText(i)) == i
  {
    DigitsEnd(if i < 0 then -i else i);
    if i < 0 {
      assert IntText(i)[1..] == Digits(-i);
      assert OneLine([45] + Digits(-i));
    }
  }

  /** One line: a status, an error or an integer. */
  lemma LineReads(t: ReplyType, b: byte, line: ByteString, rest: ByteString, level: nat)
    requires OneLine(line) && TypeOf(b) == Some(t) && (t.StatusType? || t.ErrorType? || t.IntegerType?)
    ensures ParseItem([b] + line + [13, 10] + rest, level) == Done(LineReply(t, line), rest)
  {
    var s := [b] + line + [13, 10] + rest;
    LineEnds(line, rest);
    assert s[0] == b && s[1..] == line + [13, 10] + rest;
    assert Next(s, level) == Leaf(LineReply(t, line), |line| + 2);
    assert s[1 + (|line| + 2)..] == s[1..][|line| + 2..];
  }

  /** `+` is a status. */
  lemma StatusReads(text: ByteString, rest: ByteString, level: nat)
    requires OneLine(text)
    ensures ParseItem([43] + text + [13, 10] + rest, level) == Done(Status(text), rest)
  {
    LineReads(StatusType, 43, text, rest, level);
  }

  /** `-` is an error. */
  lemma ErrorReads(text: ByteString, rest: ByteString, level: nat)
    requires OneLine(text)
    ensures ParseItem([45] + text + [13, 10] + rest, level) == Done(Error(text), rest)
  {
    LineReads(ErrorType, 45, text, rest, level);
  }

  /** `:` is a number, with its sign. */
  lemma IntegerReads(i: int, rest: ByteString, level: nat)
    ensures ParseItem([58] + IntText(i) + [13, 10] + rest, level) == Done(Integer(i), rest)
  {
    IntLine(i);
    LineReads(IntegerType, 58, IntText(i), rest, level);
  }

  /** `$` and a length is that many bytes, whatever they are. */
  lemma BulkReads(text: ByteString, rest: ByteString, level: nat)
    ensures ParseItem([36] + IntText(|text|) + [13, 10] + text + [13, 10] + rest, level) == Done(Bulk(text), rest)
  {
    var line := IntText(|text|);
    var body := text + [13, 10] + rest;
    var s := [36] + line + [13, 10] + text + [13, 10] + rest;
    IntLine(|text|);
    LineEnds(line, body);
    assert s[0] == 36 && s[1..] == line + [13, 10] + body;
    assert s[1..][|line| + 2..] == body;
    assert s[1..][|line| + 2..|line| + 2 + |text|] == text;
    assert Next(s, level) == Leaf(Bulk(text), |line| + 2 + |text| + 2);
    assert s[1 + (|line| + 2 + |text| + 2)..] == rest;
  }

  /** `$-1`, like any negative length, and `*-1` are nil. */
  lemma NilReads(i: int, rest: ByteString, level: nat)
    requires i < 0
    ensures ParseItem([36] + IntText(i) + [13, 10] + rest, level) == Done(Nil, rest)
    ensures level < 8 ==> ParseItem([42, 45, 49, 13, 10] + rest, level) == Done(Nil, rest)
    ensures IntText(-1) == [45, 49]
  {
    var line := IntText(i);
    var s := [36] + line + [13, 10] + rest;
    IntLine(i);
    LineEnds(line, rest);
    assert s[0] == 36 && s[1..] == line + [13, 10] + rest;
    assert Next(s, level) == Leaf(Nil, |line| + 2);
    assert s[1 + (|line| + 2)..] == s[1..][|line| + 2..];
    ArrayNilReads(rest, level);
  }

  lemma ArrayNilReads(rest: ByteString, level: nat)
    ensures level < 8 ==> ParseItem([42, 45, 49, 13, 10] + rest, level) == Done(Nil, rest)
    ensures IntText(-1) == [45, 49]
  {
    var s := [42, 45, 49, 13, 10] + rest;
    assert Digits(1) == [49];
    IntLine(-1);
    LineEnds([45, 49], rest);
    assert s[0] == 42 && s[1..] == [45, 49] + [13, 10] + rest;
    assert level < 8 ==> Next(s, level) == Leaf(Nil, 4);
    assert s[1 + 4..] == rest;
  }

  /** `*` and a count: no elements, or that many items one level down. */
  lemma ArrayReads(n: nat, items: ByteString, level: nat)
    requires level < 8
    ensures ParseItem([42] + IntText(n) + [13, 10] + items, level) ==
            if n == 0 then Done(Array(0, []), items)
            else match ParseItems(items, level + 1, n)
                 case Incomplete => Incomplete
                 case Bad(e) => Bad(e)
                 case Done(elements, rest) => Done(Array(n, elements), rest)
  {
    var line := IntText(n);
    var s := [42] + line + [13, 10] + items;
    IntLine(n);
    LineEnds(line, items);
    assert s[0] == 42 && s[1..] == line + [13, 10] + items;
    assert s[1 + (|line| + 2)..] == s[1..][|line| + 2..];
    if n == 0 {
      assert Next(s, level) == Leaf(Array(0, []), |line| + 2);
    } else {
      assert Next(s, level) == Head(n, |line| + 2);
    }
  }

  /** A ninth array level is refused at its first byte, and so is any byte that starts no reply. */
  lemma Refused(b: byte, rest: ByteString, level: nat)
    ensures level >= 8 ==> ParseItem([42] + rest, level) == Bad(TooDeep)
    ensures b !in {43, 45, 58, 36, 42} ==> ParseItem([b] + rest, level) == Bad(TypeByte(b))
  {
    assert ([42] + rest)[0] == 42 && ([b] + rest)[0] == b;
  }

  // ----- Whole replies -----

  /** What was written as a reply is read as that reply, whatever follows. */
  lemma {:induction false} ReplyReads(r: Reply, rest: ByteString, level: nat)
    requires Writable(r, 8 - level)
    ensures ParseItem(Text(r) + rest, level) == Done(r, rest)
    decreases r, 0
  {
    hide ParseItem, ParseItems, Digits, OneLine;
    match r
    case Status(text) => StatusReads(text, rest, level);
    case Error(text) => ErrorReads(text, rest, level);
    case Integer(value) => IntegerReads(value, rest, level);
    case Bulk(text) => BulkReads(text, rest, level);
    case Nil =>
      NilReads(-1, rest, level);
      assert [36] + IntText(-1) + [13, 10] + rest == Text(r) + rest;
    case Array(count, elements) =>
      var items := Texts(elements) + rest;
      assert Text(r) + rest == [42] + IntText(|elements|) + [13, 10] + items;
      ArrayReads(|elements|, items, level);
      RepliesRead(elements, rest, level + 1);
  }

  lemma {:induction false} RepliesRead(rs: seq<Reply>, rest: ByteString, level: nat)
    requires AllWritable(rs, 8 - level)
    ensures ParseItems(Texts(rs) + rest, level, |rs|) == Done(rs, rest)
    ensures rs == [] ==> Texts(rs) + rest == rest
    decreases rs, 0
  {
    hide ParseItem, Text, Writable;
    if rs == [] {
      assert Texts(rs) + rest == rest;
    } else {
      assert Texts(rs) + rest == Text(rs[0]) + (Texts(rs[1..]) + rest);
      ReplyReads(rs[0], Texts(rs[1..]) + rest, level);
      RepliesRead(rs[1..], rest, level);
      assert [rs[0]] + rs[1..] == rs;
    }
  }

  lemma {:induction false} StreamReads(rs: seq<Reply>)
    requires AllWritable(rs, 8)
    ensures ParseAll(Texts(rs)) == Outcome(rs, None)
  {
    hide ParseItem, Text, Writable;
    if rs == [] {
      assert Texts(rs) == [];
      EmptyStream();
    } else {
      ReplyReads(rs[0], Texts(rs[1..]), 0);
      StreamReads(rs[1..]);
      assert [rs[0]] + rs[1..] == rs;
    }
  }

  lemma EmptyStream()
    ensures ParseAll([]) == Outcome([], None)
  {
  }

  /** Replies written by a server, in whatever pieces they arrive, are the replies the reader gives. */
  method ReadReplies(rs: seq<Reply>, chunks: seq<ByteString>) returns (replies: seq<Reply>, error: Option<ReadError>)
    requires AllWritable(rs, 8) && RespReader.Flatten(chunks) == Texts(rs)
    ensures replies == rs && error == None
  {
    hide ParseAll, Texts, AllWritable;
    replies, error := RespReader.ReadStream(chunks);
    StreamReads(rs);
  }
}
