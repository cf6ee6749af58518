/**
 * The command formatter: compute the length of the command text, allocate it, and fill it. Read
 * back as a reply, the text is an array of exactly the arguments.
 */
module CommandFormat {
  import opened Bytes
  import opened Decimal
  import opened Resp
  import RespReader

  const CRLF: ByteString := [CR, LF]

  /** One argument: its length, CR LF, its bytes, CR LF. */
  function BulkText(arg: ByteString): ByteString {
    [36] + Digits(|arg|) + CRLF + arg + CRLF
  }

  function Bulks(args: seq<ByteString>): ByteString {
    if args == [] then [] else Bulks(args[..|args| - 1]) + BulkText(args[|args| - 1])
  }

  function Command(args: seq<ByteString>): ByteString {
    [42] + Digits(|args|) + CRLF + Bulks(args)
  }

  /** The number of characters an integer prints as. */
  method IntLen(i: int) returns (len: nat)
    ensures len == if i < 0 then 1 + |Digits(-i)| else |Digits(i)|
  {
    len := 0;
    var n := i;
    if n < 0 {
      len := len + 1;
      n := -n;
    }
    ghost var sign := len;
    len := len + 1;
    ghost var m := n;
    n := n / 10;
    while n != 0
      invariant 0 <= n
      invariant |Digits(m)| == if n == 0 then len - sign else len - sign + |Digits(n)|
      decreases n
    {
      len := len + 1;
      n := n / 10;
    }
  }

  method BulkLen(len: nat) returns (n: nat)
    ensures forall arg: ByteString | |arg| == len :: n == |BulkText(arg)|
  {
    var digits := IntLen(len);
    n := 1 + digits + 2 + len + 2;
  }

  /** Write text at pos. */
  method Put(cmd: array<byte>, pos: nat, text: ByteString) returns (end: nat)
    requires pos + |text| <= cmd.Length
    modifies cmd
    ensures end == pos + |text|
    ensures cmd[..end] == old(cmd[..pos]) + text
  {
    for i := 0 to |text|
      invariant cmd[..pos + i] == old(cmd[..pos]) + text[..i]
    {
      cmd[pos + i] := text[i];
    }
    assert text[..|text|] == text;
    end := pos + |text|;
  }

  /** Write one argument at pos. */
  method PutBulk(cmd: array<byte>, pos: nat, arg: ByteString) returns (end: nat)
    requires pos + |BulkText(arg)| <= cmd.Length
    modifies cmd
    ensures end == pos + |BulkText(arg)|
    ensures cmd[..end] == old(cmd[..pos]) + BulkText(arg)
  {
    end := Put(cmd, pos, [36] + Digits(|arg|) + CRLF);
    end := Put(cmd, end, arg);
    cmd[end] := CR;
    end := end + 1;
    cmd[end] := LF;
    end := end + 1;
  }

  /**
   * The computed length is exactly the length of the text, so the buffer is never overrun and the
   * text fills it up to the terminating zero.
   */
  method FormatCommandArgv(args: seq<ByteString>) returns (cmd: array<byte>, totlen: nat)
    ensures fresh(cmd) && totlen == |Command(args)| && cmd.Length == totlen + 1
    ensures cmd[..totlen] == Command(args) && cmd[totlen] == 0
  {
    hide Bulks, BulkText;
    totlen := CommandLen(args);
    cmd := new byte[totlen + 1];
    ghost var head := [42] + Digits(|args|) + CRLF;
    var pos := Put(cmd, 0, [42] + Digits(|args|) + CRLF);
    BulksNone();
    assert args[..0] == [];
    for j := 0 to |args|
      invariant pos == |head| + |Bulks(args[..j])| <= totlen
      invariant cmd[..pos] == head + Bulks(args[..j])
    {
      BulksFit(args, j);
      pos := PutBulk(cmd, pos, args[j]);
    }
    assert args[..|args|] == args;
    assert pos == totlen;
    cmd[pos] := 0;
  }

  method CommandLen(args: seq<ByteString>) returns (totlen: nat)
    ensures totlen == |Command(args)|
  {
    var digits := IntLen(|args|);
    totlen := 1 + digits + 2;
    for j := 0 to |args|
      invariant totlen == 1 + digits + 2 + |Bulks(args[..j])|
    {
      BulksFit(args, j);
      var n := BulkLen(|args[j]|);
      totlen := totlen + n;
    }
    assert args[..|args|] == args;
  }

  lemma BulksNone()
    ensures Bulks([]) == []
  {
  }

  lemma BulksFit(args: seq<ByteString>, j: nat)
    requires j < |args|
    ensures Bulks(args[..j + 1]) == Bulks(args[..j]) + BulkText(args[j])
    ensures |Bulks(args[..j + 1])| <= |Bulks(args)|
    decreases |args|
  {
    assert args[..j + 1][..j] == args[..j];
    if j + 1 < |args| {
      var rest := args[..|args| - 1];
      BulksFit(rest, j);
      assert rest[..j + 1] == args[..j + 1];
    } else {
      assert args[..j + 1] == args;
    }
  }

  // ----- Reading a command back -----

  function AsReplies(args: seq<ByteString>): (replies: seq<Reply>)
    ensures |replies| == |args| && forall i | 0 <= i < |args| :: replies[i] == Reply.Bulk(args[i])
  {
    if args == [] then [] else [Reply.Bulk(args[0])] + AsReplies(args[1..])
  }

  lemma NumberLine(n: nat, rest: ByteString)
    ensures FindCrlf(Digits(n) + CRLF + rest) == Some(|Digits(n)|)
    ensures LongLong(Digits(n)) == n
  {
    var d := Digits(n);
    var s := d + CRLF + rest;
    assert forall k | 0 <= k < |d| :: s[k] == d[k];
    assert s[|d|] == CR && s[|d| + 1] == LF;
    assert CrlfAt(s, |d|);
    CrlfUnique(s, |d|);
    RespReader.UntilCrPrefix(d, |d|);
    assert UntilCr(d) == d;
    ValueOfDigits(n);
  }

  lemma BulkReads(arg: ByteString, rest: ByteString, level: nat)
    ensures ParseItem(BulkText(arg) + rest, level) == Done(Bulk(arg), rest)
  {
    var d := Digits(|arg|);
    var s := BulkText(arg) + rest;
    var line := d + CRLF + (arg + CRLF + rest);
    NumberLine(|arg|, arg + CRLF + rest);
    assert s[0] == 36 && s[1..] == line;
    assert line[..|d|] == d;
    assert line[|d| + 2..|d| + 2 + |arg|] == arg;
    assert Next(s, level) == Leaf(Bulk(arg), |d| + 2 + |arg| + 2);
    assert s[1 + |d| + 2 + |arg| + 2..] == rest;
  }

  lemma {:induction false} BulksRead(args: seq<ByteString>, rest: ByteString, level: nat)
    ensures ParseItems(Bulks(args) + rest, level, |args|) == Done(AsReplies(args), rest)
  {
    if args != [] {
      BulksFirst(args);
      assert Bulks(args) + rest == BulkText(args[0]) + (Bulks(args[1..]) + rest);
      BulkReads(args[0], Bulks(args[1..]) + rest, level);
      BulksRead(args[1..], rest, level);
    } else {
      assert Bulks(args) + rest == rest;
    }
  }

  lemma {:induction false} BulksFirst(args: seq<ByteString>)
    requires args != []
    ensures Bulks(args) == BulkText(args[0]) + Bulks(args[1..])
  {
    hide BulkText;
    if |args| == 1 {
      assert args[..0] == [] && args[1..] == [];
    } else {
      var rest := args[..|args| - 1];
      BulksFirst(rest);
      assert rest[1..] == args[1..][..|args| - 2];
    }
  }

  /** A command, followed by anything, reads as the array of its arguments; then the rest follows. */
  lemma CommandReads(args: seq<ByteString>, rest: ByteString)
    ensures ParseItem(Command(args) + rest, 0) == Done(Array(|args|, AsReplies(args)), rest)
  {
    hide AsReplies, Bulks, ParseItems;
    var d := Digits(|args|);
    var s := Command(args) + rest;
    NumberLine(|args|, Bulks(args) + rest);
    assert s[0] == 42 && s[1..] == d + CRLF + (Bulks(args) + rest);
    assert s[1..][..|d|] == d;
    assert s[1 + |d| + 2..] == Bulks(args) + rest;
    BulksRead(args, rest, 1);
    NoBulks(args, rest);
  }

  lemma NoBulks(args: seq<ByteString>, rest: ByteString)
    ensures |args| == 0 ==> Bulks(args) + rest == rest
  {
  }

  /** The commands one after the other, as a pipelining client appends them to its output. */
  function Pipeline(commands: seq<seq<ByteString>>): ByteString {
    if commands == [] then [] else Command(commands[0]) + Pipeline(commands[1..])
  }

  function AsArrays(commands: seq<seq<ByteString>>): (replies: seq<Reply>)
    ensures |replies| == |commands|
    ensures forall i | 0 <= i < |commands| :: replies[i] == Array(|commands[i]|, AsReplies(commands[i]))
  {
    seq(|commands|, i requires 0 <= i < |commands| => Array(|commands[i]|, AsReplies(commands[i])))
  }

  lemma {:induction false} PipelineReads(commands: seq<seq<ByteString>>)
    ensures ParseAll(Pipeline(commands)) == Outcome(AsArrays(commands), None)
  {
    hide ParseItem, Command, AsReplies;
    if commands == [] {
      NothingToRead();
    } else {
      var rest := Pipeline(commands[1..]);
      CommandReads(commands[0], rest);
      PipelineReads(commands[1..]);
      assert ParseAll(Pipeline(commands)) == Prepend([AsArrays(commands)[0]], ParseAll(rest));
      assert AsArrays(commands) == [AsArrays(commands)[0]] + AsArrays(commands[1..]);
    }
  }

  lemma NothingToRead()
    ensures ParseAll([]) == Outcome([], None)
  {
  }

  lemma {:induction false} PipelineMore(commands: seq<seq<ByteString>>, last: seq<ByteString>)
    ensures Pipeline(commands + [last]) == Pipeline(commands) + Command(last)
  {
    hide Command;
    if commands == [] {
      assert [last][1..] == [] && commands + [last] == [last];
      assert Pipeline([last]) == Command(last) + Pipeline([]);
    } else {
      assert (commands + [last])[1..] == commands[1..] + [last];
      PipelineMore(commands[1..], last);
    }
  }

  /**
   * Formatting commands one after the other and feeding the text to a reply reader, in whatever
   * pieces it arrives, gives back exactly their arguments, whatever bytes they hold.
   */
  method FormatThenRead(commands: seq<seq<ByteString>>, chunks: seq<ByteString>)
    returns (text: ByteString, replies: seq<Reply>, error: Option<ReadError>)
    requires RespReader.Flatten(chunks) == Pipeline(commands)
    ensures text == RespReader.Flatten(chunks)
    ensures replies == AsArrays(commands) && error.None?
  {
    hide ParseAll, AsReplies, Command;
    text := [];
    assert commands[..0] == [];
    for i := 0 to |commands|
      invariant text == Pipeline(commands[..i])
    {
      var cmd, totlen := FormatCommandArgv(commands[i]);
      text := text + cmd[..totlen];
      assert commands[..i + 1] == commands[..i] + [commands[i]];
      PipelineMore(commands[..i], commands[i]);
    }
    assert commands[..|commands|] == commands;
    replies, error := RespReader.ReadStream(chunks);
    PipelineReads(commands);
  }
}
