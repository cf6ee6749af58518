/**
 * The forms an argument can take on a line, in literal bytes: bare, between quotes with escapes, and
 * between apostrophes; and what a line of them splits into.
 */
module SdsForms {
  import opened Bytes
  import opened Sds
  import opened SdsArgs

  // ----- Escapes -----

  /** What a backslash and a letter stand for between quotes: \n \r \t \b \a, and any other letter itself. */
  lemma EscapeLetter(c: byte, more: ByteString)
    requires c != 0 && !HexEscape([92, c] + more)
    ensures Step([92, c] + more, InQuotes) ==
      Add([if c == 110 then 10 else if c == 114 then 13 else if c == 116 then 9
           else if c == 98 then 8 else if c == 97 then 7 else c], 2)
  {
  }

  /** The digits 0 to 9, a to f and A to F, and no others. */
  lemma HexDigits(v: int)
    requires 0 <= v < 16
    ensures v < 10 ==> IsHexDigit((48 + v) as byte) && HexValue((48 + v) as byte) == v
    ensures v >= 10 ==> IsHexDigit((87 + v) as byte) && HexValue((87 + v) as byte) == v
    ensures v >= 10 ==> IsHexDigit((55 + v) as byte) && HexValue((55 + v) as byte) == v
    ensures forall c: byte :: IsHexDigit(c) <==> 48 <= c <= 57 || 97 <= c <= 102 || 65 <= c <= 70
  {
  }

  /** \x and two digits is the byte of that number. */
  lemma HexByte(high: byte, low: byte, more: ByteString)
    requires IsHexDigit(high) && IsHexDigit(low)
    ensures Step([92, 120, high, low] + more, InQuotes) == Add([(HexValue(high) * 16 + HexValue(low)) as byte], 4)
  {
  }

  /** How quoting writes a byte. */
  lemma WrittenAs(c: byte)
    ensures c == 34 || c == 92 ==> Escape(c) == [92, c]
    ensures c == 10 ==> Escape(c) == [92, 110]
    ensures c == 13 ==> Escape(c) == [92, 114]
    ensures c == 9 ==> Escape(c) == [92, 116]
    ensures c == 7 ==> Escape(c) == [92, 97]
    ensures c == 8 ==> Escape(c) == [92, 98]
    ensures 32 <= c <= 126 && c != 34 && c != 92 ==> Escape(c) == [c]
    ensures (c < 32 && !(7 <= c <= 10) && c != 13) || c >= 127 ==>
      Escape(c) == [92, 120, LowerHex(c as int / 16), LowerHex(c as int % 16)]
  {
  }

  function LowerHex(v: int): byte
    requires 0 <= v < 16
  {
    [48, 49, 50, 51, 52, 53, 54, 55, 56, 57, 97, 98, 99, 100, 101, 102][v]
  }

  // ----- Apostrophes -----

  /** Between apostrophes only an apostrophe is escaped. */
  function Apostrophed(t: ByteString): ByteString {
    if t == [] then [] else (if t[0] == 39 then [92, 39] else [t[0]]) + Apostrophed(t[1..])
  }

  /** Nothing can stand for a zero byte, nor for a backslash right before the closing apostrophe. */
  predicate FitsApostrophes(t: ByteString) {
    (forall i | 0 <= i < |t| :: t[i] != 0) && (t != [] ==> t[|t| - 1] != 92)
  }

  lemma {:induction false} ApostrophesRead(t: ByteString, current: ByteString, more: ByteString)
    requires FitsApostrophes(t)
    ensures Scan(Apostrophed(t) + [39] + more, InApostrophes, current) == Scan([39] + more, InApostrophes, current + t)
  {
    var s := Apostrophed(t) + [39] + more;
    if t == [] {
      assert s == [39] + more && current + t == current;
    } else {
      var rest := Apostrophed(t[1..]) + [39] + more;
      assert s == (if t[0] == 39 then [92, 39] else [t[0]]) + rest;
      assert rest[0] == 39 ==> t[1..] == [];
      assert t[1..] != [] ==> t[1..][|t[1..]| - 1] == t[|t| - 1];
      var used := if t[0] == 39 then 2 else 1;
      assert s[used..] == rest;
      assert Step(s, InApostrophes) == Add([t[0]], used);
      ApostrophesRead(t[1..], current + [t[0]], more);
      assert current + [t[0]] + t[1..] == current + t;
    }
  }

  /** What may follow a closing quote or apostrophe. */
  predicate Ends(more: ByteString) {
    more == [] || more[0] == 0 || more[0] == 32 || 9 <= more[0] <= 13
  }

  /** A closing quote or apostrophe ends the token if nothing or a space follows, and is an error otherwise. */
  lemma Closing(mode: Mode, current: ByteString, more: ByteString)
    requires mode != Plain
    ensures var close := if mode == InQuotes then 34 else 39;
            Scan([close] + more, mode, current) == if Ends(more) then Token(current, more) else Unbalanced
  {
    var close: byte := if mode == InQuotes then 34 else 39;
    assert ([close] + more)[1..] == more;
  }

  /** A line that ends between quotes or apostrophes is an error. */
  lemma Unterminated(mode: Mode, current: ByteString)
    requires mode != Plain
    ensures Scan([], mode, current) == Unbalanced
  {
  }

  // ----- Forms -----

  datatype Form = Bare(t: ByteString) | WithQuotes(t: ByteString) | WithApostrophes(t: ByteString)

  function Text(f: Form): ByteString {
    match f
    case Bare(t) => t
    case WithQuotes(t) => [34] + EscapeAll(t) + [34]
    case WithApostrophes(t) => [39] + Apostrophed(t) + [39]
  }

  predicate Fits(f: Form) {
    match f
    case Bare(t) => t != [] && forall i | 0 <= i < |t| :: t[i] !in {0, 9, 10, 11, 12, 13, 32, 34, 39}
    case WithQuotes(t) => true
    case WithApostrophes(t) => FitsApostrophes(t)
  }

  lemma {:induction false} BareReads(t: ByteString, current: ByteString, more: ByteString)
    requires forall i | 0 <= i < |t| :: t[i] !in {0, 9, 10, 13, 32, 34, 39}
    requires more == [] || more[0] == 32
    ensures Scan(t + more, Plain, current) == Token(current + t, if more == [] then [] else more[1..])
  {
    if t == [] {
      assert t + more == more && current + t == current;
    } else {
      assert (t + more)[1..] == t[1..] + more;
      BareReads(t[1..], current + [t[0]], more);
      assert current + [t[0]] + t[1..] == current + t;
    }
  }

  lemma OpensQuotes(body: ByteString, more: ByteString)
    ensures Scan([34] + body + [34] + more, Plain, []) == Scan(body + ([34] + more), InQuotes, [])
    ensures Scan([39] + body + [39] + more, Plain, []) == Scan(body + [39] + more, InApostrophes, [])
  {
    var s, t := [34] + body + [34] + more, [39] + body + [39] + more;
    assert s[1..] == body + ([34] + more) && t[1..] == body + [39] + more;
    assert Step(s, Plain) == Switch(InQuotes) && Step(t, Plain) == Switch(InApostrophes);
    hide Step;
  }

  /** Any form reads as its bytes; the space after a bare one is used up. */
  lemma FormReads(f: Form, more: ByteString)
    requires Fits(f) && (more == [] || more[0] == 32)
    ensures Scan(Text(f) + more, Plain, []) == Token(f.t, if f.Bare? && more != [] then more[1..] else more)
  {
    hide EscapeAll, Apostrophed, FitsApostrophes, Scan, Step;
    assert [] + f.t == f.t;
    match f
    case Bare(t) => BareReads(t, [], more);
    case WithQuotes(t) =>
      OpensQuotes(EscapeAll(t), more);
      EscapesRead(t, [], [34] + more);
      Closing(InQuotes, t, more);
    case WithApostrophes(t) =>
      OpensQuotes(Apostrophed(t), more);
      ApostrophesRead(t, [], more);
      Closing(InApostrophes, t, more);
  }

  /** Forms joined by single spaces. */
  function Line(fs: seq<Form>): ByteString {
    if fs == [] then [] else Text(fs[0]) + if |fs| == 1 then [] else [32] + Line(fs[1..])
  }

  function Values(fs: seq<Form>): (args: seq<ByteString>)
    ensures |args| == |fs| && forall i | 0 <= i < |fs| :: args[i] == fs[i].t
  {
    seq(|fs|, i requires 0 <= i < |fs| => fs[i].t)
  }

  /** A line of forms of any kind splits into their bytes. */
  lemma {:induction false} LineSplits(fs: seq<Form>)
    requires forall i | 0 <= i < |fs| :: Fits(fs[i])
    ensures SplitLine(Line(fs)) == Args(Values(fs))
  {
    if fs == [] {
      NothingSplits();
    } else {
      hide Scan, SplitLine, Text, Fits;
      LineSplits(fs[1..]);
      LineFrom(fs);
      var more := if |fs| == 1 then [] else [32] + Line(fs[1..]);
      if |fs| > 1 {
        BlankSkipped(32, Line(fs[1..]));
        assert more[1..] == Line(fs[1..]);
      }
      FirstSplits(fs[0], more, Values(fs[1..]));
      assert Values(fs) == [fs[0].t] + Values(fs[1..]);
    }
  }

  lemma NothingSplits()
    ensures SplitLine(Line([])) == Args(Values([]))
  {
  }

  lemma LineFrom(fs: seq<Form>)
    requires fs != []
    ensures Line(fs) == Text(fs[0]) + if |fs| == 1 then [] else [32] + Line(fs[1..])
    ensures |fs| == 1 ==> Line(fs[1..]) == []
  {
  }

  /** The first form is the first argument; the others are those of what follows it. */
  lemma FirstSplits(f: Form, more: ByteString, others: seq<ByteString>)
    requires Fits(f) && (more == [] || more[0] == 32)
    requires SplitLine(more) == Args(others)
    requires more != [] ==> SplitLine(more[1..]) == Args(others)
    ensures SplitLine(Text(f) + more) == Args([f.t] + others)
  {
    FormReads(f, more);
    StartsThere(f, more);
    SplitFrom(Text(f) + more);
  }

  lemma SplitFrom(s: ByteString)
    requires SkipBlanks(s) == s && At(s, 0) != 0 && Scan(s, Plain, []).Token?
    ensures var token := Scan(s, Plain, []);
            SplitLine(s) == match SplitLine(token.rest)
                            case BadQuotes => BadQuotes
                            case Args(others) => Args([token.value] + others)
  {
    hide Scan;
  }

  /** Blanks in front of a line do not matter. */
  lemma {:induction false} BlanksSkipped(blanks: ByteString, s: ByteString)
    requires forall i | 0 <= i < |blanks| :: blanks[i] == 32 || 9 <= blanks[i] <= 13
    ensures SplitLine(blanks + s) == SplitLine(s)
  {
    hide SplitLine;
    if blanks == [] {
      assert blanks + s == s;
    } else {
      BlankSkipped(blanks[0], blanks[1..] + s);
      assert blanks + s == [blanks[0]] + (blanks[1..] + s);
      BlanksSkipped(blanks[1..], s);
    }
  }

  lemma BlankSkipped(c: byte, s: ByteString)
    requires c == 32 || 9 <= c <= 13
    ensures SplitLine([c] + s) == SplitLine(s)
  {
    assert ([c] + s)[1..] == s;
  }

  lemma StartsThere(f: Form, more: ByteString)
    requires Fits(f)
    ensures SkipBlanks(Text(f) + more) == Text(f) + more && At(Text(f) + more, 0) != 0
  {
    hide EscapeAll, Apostrophed;
  }

  /** The loop of the program on such a line. */
  method SplitForms(fs: seq<Form>) returns (r: Split)
    requires forall i | 0 <= i < |fs| :: Fits(fs[i])
    ensures r == Args(Values(fs))
  {
    LineSplits(fs);
    r := SplitArgs(Line(fs));
  }
}
