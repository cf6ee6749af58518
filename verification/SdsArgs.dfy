/**
 * Splitting a line into arguments, which may be quoted, and the round trip with quoting: joining
 * quoted byte strings with spaces and splitting the line gives the byte strings back.
 */
module SdsArgs {
  import opened Bytes
  import opened Sds

  /** The byte at i of a C string: zero at its end. */
  function At(s: ByteString, i: nat): byte {
    if i < |s| then s[i] else 0
  }

  datatype Mode = Plain | InQuotes | InApostrophes

  datatype Scanned = Token(value: ByteString, rest: ByteString) | Unbalanced

  /** The byte an escape letter stands for. */
  function Unescape(c: byte): byte {
    if c == 110 then 10
    else if c == 114 then 13
    else if c == 116 then 9
    else if c == 98 then 8
    else if c == 97 then 7
    else c
  }

  predicate HexEscape(s: ByteString) {
    At(s, 0) == BACKSLASH && At(s, 1) == LETTER_X && IsHexDigit(At(s, 2)) && IsHexDigit(At(s, 3))
  }

  /** A closing quote must be followed by a space or the end of the line. */
  predicate MayClose(s: ByteString) {
    At(s, 1) == 0 || IsSpace(At(s, 1))
  }

  predicate EndsPlain(c: byte) {
    c == SPACE || c == 10 || c == 13 || c == 9 || c == 0
  }

  /** What one round of the token loop does at the front of s. */
  datatype Round =
    | Add(bytes: ByteString, used: nat)
    | Switch(mode: Mode)
    | Done(used: nat)
    | Fail

  function Step(s: ByteString, mode: Mode): (r: Round)
    ensures r.Add? ==> 0 < r.used <= |s|
    ensures r.Switch? ==> 0 < |s|
    ensures r.Done? ==> r.used <= |s|
  {
    var c := At(s, 0);
    match mode
    case InQuotes =>
      if HexEscape(s) then Add([(HexValue(s[2]) * 16 + HexValue(s[3])) as byte], 4)
      else if c == BACKSLASH && At(s, 1) != 0 then Add([Unescape(s[1])], 2)
      else if c == QUOTE then (if MayClose(s) then Done(1) else Fail)
      else if c == 0 then Fail
      else Add([c], 1)
    case InApostrophes =>
      if c == BACKSLASH && At(s, 1) == APOSTROPHE then Add([APOSTROPHE], 2)
      else if c == APOSTROPHE then (if MayClose(s) then Done(1) else Fail)
      else if c == 0 then Fail
      else Add([c], 1)
    case Plain =>
      if EndsPlain(c) then Done(if c == 0 then 0 else 1)
      else if c == QUOTE then Switch(InQuotes)
      else if c == APOSTROPHE then Switch(InApostrophes)
      else Add([c], 1)
  }

  /** Read the rest of a token. */
  function Scan(s: ByteString, mode: Mode, current: ByteString): (r: Scanned)
    ensures r.Token? ==> |r.rest| <= |s|
    ensures r.Token? && !EndsPlain(At(s, 0)) ==> |r.rest| < |s|
    decreases |s|
  {
    match Step(s, mode)
    case Add(bytes, used) => Scan(s[used..], mode, current + bytes)
    case Switch(mode') => Scan(s[1..], mode', current)
    case Done(used) => Token(current, s[used..])
    case Fail => Unbalanced
  }

  function SkipBlanks(s: ByteString): (t: ByteString)
    ensures |t| <= |s|
    ensures t != [] ==> !IsSpace(t[0])
  {
    if At(s, 0) != 0 && IsSpace(s[0]) then SkipBlanks(s[1..]) else s
  }

  datatype Split = Args(args: seq<ByteString>) | BadQuotes

  /** All the arguments of a line. */
  function SplitLine(s: ByteString): Split
    decreases |s|
  {
    var t := SkipBlanks(s);
    if At(t, 0) == 0 then Args([])
    else match Scan(t, Plain, [])
      case Unbalanced => BadQuotes
      case Token(value, rest) =>
        match SplitLine(rest)
        case BadQuotes => BadQuotes
        case Args(others) => Args([value] + others)
  }

  /** Arguments found so far, then those of the rest of the line. */
  function After(vector: seq<ByteString>, rest: Split): Split {
    match rest
    case BadQuotes => BadQuotes
    case Args(others) => Args(vector + others)
  }

  /** The loop's variables after a round that Step describes. */
  predicate Took(r: Round, current: ByteString, p: nat, ok: bool, done: bool, current': ByteString, p': nat) {
    match r
    case Add(bytes, used) => ok && !done && current' == current + bytes && p' == p + used
    case Switch(_) => ok && !done && current' == current && p' == p + 1
    case Done(used) => ok && done && current' == current && p' == p + used
    case Fail => !ok
  }

  function NextMode(r: Round, mode: Mode): Mode {
    if r.Switch? then r.mode else mode
  }

  /** p++, unless the line ends here. */
  function Advance(line: ByteString, p: nat): nat {
    if At(line, p) != 0 then p + 1 else p
  }

  lemma AtRest(line: ByteString, p: nat)
    requires p <= |line|
    ensures forall k: nat :: At(line[p..], k) == At(line, p + k)
  {
  }

  method RoundInQuotes(line: ByteString, p: nat, current: ByteString)
    returns (ok: bool, done: bool, current': ByteString, p': nat)
    requires p <= |line|
    ensures Took(Step(line[p..], InQuotes), current, p, ok, done, current', p')
    ensures !Step(line[p..], InQuotes).Switch?
  {
    AtRest(line, p);
    ok, done, current', p' := true, false, current, p;
    var c := At(line, p);
    if c == BACKSLASH && At(line, p + 1) == LETTER_X && IsHexDigit(At(line, p + 2)) && IsHexDigit(At(line, p + 3)) {
      var b := (HexValue(At(line, p + 2)) * 16 + HexValue(At(line, p + 3))) as byte;
      current' := current + [b];
      p' := p + 3;
    } else if c == BACKSLASH && At(line, p + 1) != 0 {
      p' := p + 1;
      current' := current + [Unescape(At(line, p'))];
    } else if c == QUOTE {
      if At(line, p + 1) != 0 && !IsSpace(At(line, p + 1)) {
        ok := false;
      }
      done := true;
    } else if c == 0 {
      ok := false;
    } else {
      current' := current + [c];
    }
    p' := Advance(line, p');
  }

  method RoundInApostrophes(line: ByteString, p: nat, current: ByteString)
    returns (ok: bool, done: bool, current': ByteString, p': nat)
    requires p <= |line|
    ensures Took(Step(line[p..], InApostrophes), current, p, ok, done, current', p')
    ensures !Step(line[p..], InApostrophes).Switch?
  {
    AtRest(line, p);
    ok, done, current', p' := true, false, current, p;
    var c := At(line, p);
    if c == BACKSLASH && At(line, p + 1) == APOSTROPHE {
      p' := p + 1;
      current' := current + [APOSTROPHE];
    } else if c == APOSTROPHE {
      if At(line, p + 1) != 0 && !IsSpace(At(line, p + 1)) {
        ok := false;
      }
      done := true;
    } else if c == 0 {
      ok := false;
    } else {
      current' := current + [c];
    }
    p' := Advance(line, p');
  }

  method RoundPlain(line: ByteString, p: nat, current: ByteString)
    returns (done: bool, current': ByteString, p': nat, mode: Mode)
    requires p <= |line|
    ensures Took(Step(line[p..], Plain), current, p, true, done, current', p')
    ensures mode == NextMode(Step(line[p..], Plain), Plain)
  {
    AtRest(line, p);
    done, current', mode := false, current, Plain;
    var c := At(line, p);
    if EndsPlain(c) {
      done := true;
    } else if c == QUOTE {
      mode := InQuotes;
    } else if c == APOSTROPHE {
      mode := InApostrophes;
    } else {
      current' := current + [c];
    }
    p' := Advance(line, p);
  }

  lemma ScanRound(line: ByteString, p: nat, mode: Mode, current: ByteString, ok: bool, done: bool,
                  current': ByteString, p': nat)
    requires p <= |line| && Took(Step(line[p..], mode), current, p, ok, done, current', p')
    ensures !ok ==> Scan(line[p..], mode, current) == Unbalanced
    ensures ok ==> p <= p' <= |line| && (!done ==> p < p')
    ensures ok && done ==> Scan(line[p..], mode, current) == Token(current', line[p'..])
    ensures ok && !done ==>
      Scan(line[p..], mode, current) == Scan(line[p'..], NextMode(Step(line[p..], mode), mode), current')
  {
    hide Step;
    assert forall k | 0 <= k <= |line| - p :: line[p..][k..] == line[p + k..];
  }

  /** Read one token from start on: the loop over its bytes. */
  method GetToken(line: ByteString, start: nat) returns (ok: bool, current: ByteString, p: nat)
    requires start <= |line|
    ensures ok ==> p <= |line|
    ensures Scan(line[start..], Plain, []) == if ok then Token(current, line[p..]) else Unbalanced
  {
    hide Step, Scan;
    var mode, done := Plain, false;
    ok, p, current := true, start, [];
    while !done && ok
      invariant ok ==> p <= |line|
      invariant ok && !done ==> Scan(line[start..], Plain, []) == Scan(line[p..], mode, current)
      invariant ok && done ==> Scan(line[start..], Plain, []) == Token(current, line[p..])
      invariant !ok ==> Scan(line[start..], Plain, []) == Unbalanced
      decreases ok, if ok then |line| - p else 0, !done
    {
      ghost var mode0, current0, p0 := mode, current, p;
      match mode {
        case InQuotes => ok, done, current, p := RoundInQuotes(line, p, current);
        case InApostrophes => ok, done, current, p := RoundInApostrophes(line, p, current);
        case Plain => done, current, p, mode := RoundPlain(line, p, current);
      }
      ScanRound(line, p0, mode0, current0, ok, done, current, p);
    }
  }

  /** sdssplitargs: None for unbalanced quotes. */
  method SplitArgs(line: ByteString) returns (r: Split)
    ensures r == SplitLine(line)
  {
    hide Scan;
    var p: nat, vector: seq<ByteString> := 0, [];
    assert line[0..] == line;
    while true
      invariant p <= |line| && After(vector, SplitLine(line[p..])) == SplitLine(line)
      decreases |line| - p
    {
      ghost var s := line[p..];
      while At(line, p) != 0 && IsSpace(At(line, p))
        invariant p <= |line| && |line| - p <= |s| && SkipBlanks(s) == SkipBlanks(line[p..])
        decreases |line| - p
      {
        assert line[p..][1..] == line[p + 1..];
        p := p + 1;
      }
      assert SkipBlanks(s) == line[p..];
      if At(line, p) == 0 {
        assert vector + [] == vector;
        return Args(vector);
      }
      var ok, current;
      ok, current, p := GetToken(line, p);
      if !ok {
        return BadQuotes;
      }
      AfterToken(vector, current, SplitLine(line[p..]));
      vector := vector + [current];
    }
  }

  lemma AfterToken(vector: seq<ByteString>, value: ByteString, rest: Split)
    ensures After(vector, After([value], rest)) == After(vector + [value], rest)
  {
    if rest.Args? {
      assert vector + ([value] + rest.args) == vector + [value] + rest.args;
    }
  }

  // ----- The round trip -----

  /** Quoted strings joined by single spaces. */
  function JoinQuoted(args: seq<ByteString>): ByteString {
    if args == [] then []
    else if |args| == 1 then Quoted(args[0])
    else Quoted(args[0]) + [SPACE] + JoinQuoted(args[1..])
  }

  /** Between quotes, the escape of a byte reads as that byte. */
  lemma EscapeReads(c: byte, more: ByteString)
    ensures Step(Escape(c) + more, InQuotes) == Add([c], |Escape(c)|)
  {
    var s := Escape(c) + more;
    if !(c == BACKSLASH || c == QUOTE || c == 10 || c == 13 || c == 9 || c == 7 || c == 8 || IsPrint(c)) {
      HexRoundTrip(c);
    }
  }

  lemma HexRoundTrip(c: byte)
    ensures var h, l := HexDigit(c as int / 16), HexDigit(c as int % 16);
            IsHexDigit(h) && IsHexDigit(l) && HexValue(h) * 16 + HexValue(l) == c as int
  {
  }

  lemma {:induction false} EscapesRead(t: ByteString, current: ByteString, more: ByteString)
    ensures Scan(EscapeAll(t) + more, InQuotes, current) == Scan(more, InQuotes, current + t)
  {
    hide Escape, Step;
    if t == [] {
      assert EscapeAll(t) + more == more && current + t == current;
    } else {
      EscapeFirst(t);
      var rest := EscapeAll(t[1..]) + more;
      assert EscapeAll(t) + more == Escape(t[0]) + rest;
      EscapeReads(t[0], rest);
      assert (Escape(t[0]) + rest)[|Escape(t[0])|..] == rest;
      EscapesRead(t[1..], current + [t[0]], more);
      assert current + [t[0]] + t[1..] == current + t;
    }
  }

  lemma {:induction false} EscapeFirst(t: ByteString)
    requires t != []
    ensures EscapeAll(t) == Escape(t[0]) + EscapeAll(t[1..])
  {
    hide Escape;
    if |t| == 1 {
      assert t[..0] == [] && t[1..] == [];
    } else {
      var rest := t[..|t| - 1];
      EscapeFirst(rest);
      var tail := t[1..];
      assert rest[1..] == tail[..|tail| - 1] && tail[|tail| - 1] == t[|t| - 1];
      assert EscapeAll(t) == Escape(t[0]) + EscapeAll(rest[1..]) + Escape(t[|t| - 1]);
    }
  }

  /** A quoted string followed by the end of the line or a space is one token. */
  lemma QuotedReads(t: ByteString, more: ByteString)
    requires more == [] || more[0] == SPACE
    ensures Scan(Quoted(t) + more, Plain, []) == Token(t, more)
  {
    hide EscapeAll;
    var s := Quoted(t) + more;
    var close := [QUOTE] + more;
    assert s[1..] == EscapeAll(t) + close;
    EscapesRead(t, [], close);
    assert [] + t == t;
    assert close[1..] == more;
  }

  /**
   * Quoting then splitting is the identity: for every list of byte strings, with zeros, quotes,
   * backslashes and bytes of any value.
   */
  lemma {:induction false} QuoteRoundTrip(args: seq<ByteString>)
    ensures SplitLine(JoinQuoted(args)) == Args(args)
  {
    hide Quoted, Scan;
    if args != [] {
      assert args[0..] == args;
      JoinStep(args, 0);
      var more := if |args| == 1 then [] else [SPACE] + JoinQuoted(args[1..]);
      var line := JoinQuoted(args);
      assert line == Quoted(args[0]) + more;
      QuotedReads(args[0], more);
      NotBlank(args[0], more);
      QuoteRoundTrip(args[1..]);
      if |args| > 1 {
        SplitAfterSpace(JoinQuoted(args[1..]));
      } else {
        assert args[1..] == [];
      }
      assert [args[0]] + args[1..] == args;
    }
  }

  lemma NotBlank(t: ByteString, more: ByteString)
    ensures SkipBlanks(Quoted(t) + more) == Quoted(t) + more && At(Quoted(t) + more, 0) == QUOTE
  {
    hide EscapeAll;
  }

  lemma SplitAfterSpace(s: ByteString)
    ensures SplitLine([SPACE] + s) == SplitLine(s)
  {
    assert ([SPACE] + s)[1..] == s;
  }

  lemma JoinStep(args: seq<ByteString>, j: nat)
    requires j < |args|
    ensures JoinQuoted(args[j..]) ==
      Quoted(args[j]) + (if j == |args| - 1 then [] else [SPACE]) + JoinQuoted(args[j + 1..])
  {
    hide Quoted;
    assert args[j..][1..] == args[j + 1..];
  }

  /** sdscatrepr for every argument, joined by spaces, and sdssplitargs on the result. */
  method QuoteThenSplit(args: seq<ByteString>) returns (r: Split)
    ensures r == Args(args)
  {
    hide Quoted, JoinQuoted, SplitLine;
    var line := new SdsString([]);
    assert args[0..] == args;
    for j := 0 to |args|
      invariant line.Valid() && fresh(line) && fresh(line.buf)
      invariant line.Contents() + JoinQuoted(args[j..]) == JoinQuoted(args)
    {
      JoinStep(args, j);
      CatRepr(line, args[j]);
      if j != |args| - 1 {
        line.CatLen([SPACE]);
      }
    }
    JoinNone(args);
    assert line.Contents() + [] == line.Contents();
    QuoteRoundTrip(args);
    r := SplitArgs(line.buf[..line.len]);
  }

  lemma JoinNone(args: seq<ByteString>)
    ensures JoinQuoted(args[|args|..]) == []
  {
  }
}
