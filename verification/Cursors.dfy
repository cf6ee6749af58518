/**
 * Paging cursors: a score and a member, written as decimal float bits, the letter A, and the
 * member in base64url (section 5 of RFC 4648).
 */
module Cursors {
  import opened Bytes
  import opened Decimal
  import opened SortedSets

  /** A cursor is a place in the (score, member) order. */
  type Cursor = Entry

  datatype Option<+T> = None | Some(value: T)

  const LETTER_A: byte := 65
  const PAD: byte := 61

  // ----- Scores as float bits -----

  const SIGN_BIT: int := 0x8000_0000_0000_0000

  predicate IsDouble(score: Score) {
    -SIGN_BIT < score < SIGN_BIT
  }

  /** IEEE-754 doubles are ordered by magnitude bits, reversed below zero. */
  function FloatBits(score: Score): (bits: nat)
    requires IsDouble(score)
    ensures bits < 2 * SIGN_BIT
  {
    if score >= 0 then score else SIGN_BIT - score
  }

  function FromBits(bits: nat): Score {
    if bits < SIGN_BIT then bits else SIGN_BIT - bits
  }

  // ----- base64url -----

  function Sextet(v: int): byte
    requires 0 <= v < 64
  {
    if v < 26 then (65 + v) as byte
    else if v < 52 then (97 + v - 26) as byte
    else if v < 62 then (48 + v - 52) as byte
    else if v == 62 then 45
    else 95
  }

  function Alphabet(): (s: ByteString)
    ensures |s| == 64
  {
    seq(64, i requires 0 <= i < 64 => Sextet(i))
  }

  function LastIndex(s: ByteString, c: byte): (i: int)
    ensures -1 <= i < |s|
  {
    if s == [] then -1 else if s[|s| - 1] == c then |s| - 1 else LastIndex(s[..|s| - 1], c)
  }

  /** The value of a base64url letter, or -1. */
  function SextetValue(c: byte): (v: int)
    ensures -1 <= v < 64
  {
    LastIndex(Alphabet(), c)
  }

  // The four sextets that carry three bytes, and the way back.
  function S0(b0: byte): (v: int) ensures 0 <= v < 64 { b0 as int / 4 }
  function S1(b0: byte, b1: byte): (v: int) ensures 0 <= v < 64 { b0 as int % 4 * 16 + b1 as int / 16 }
  function S2(b1: byte, b2: byte): (v: int) ensures 0 <= v < 64 { b1 as int % 16 * 4 + b2 as int / 64 }
  function S3(b2: byte): (v: int) ensures 0 <= v < 64 { b2 as int % 64 }

  function B0(v0: int, v1: int): byte
    requires 0 <= v0 < 64 && 0 <= v1 < 64
  {
    (v0 * 4 + v1 / 16) as byte
  }

  function B1(v1: int, v2: int): byte
    requires 0 <= v1 < 64 && 0 <= v2 < 64
  {
    (v1 % 16 * 16 + v2 / 4) as byte
  }

  function B2(v2: int, v3: int): byte
    requires 0 <= v2 < 64 && 0 <= v3 < 64
  {
    (v2 % 4 * 64 + v3) as byte
  }

  // The last sextet of a group of one or two bytes.
  function L1(b0: byte): (v: int) ensures 0 <= v < 64 { b0 as int % 4 * 16 }
  function L2(b1: byte): (v: int) ensures 0 <= v < 64 { b1 as int % 16 * 4 }

  /** The letters of the first group: one to three bytes, padded to four letters. */
  function EncodeGroup(b: ByteString): (t: ByteString)
    requires b != []
    ensures |t| == 4
  {
    if |b| == 1 then [Sextet(S0(b[0])), Sextet(L1(b[0])), PAD, PAD]
    else if |b| == 2 then [Sextet(S0(b[0])), Sextet(S1(b[0], b[1])), Sextet(L2(b[1])), PAD]
    else [Sextet(S0(b[0])), Sextet(S1(b[0], b[1])), Sextet(S2(b[1], b[2])), Sextet(S3(b[2]))]
  }

  function Encode64(b: ByteString): ByteString {
    if b == [] then []
    else if |b| <= 3 then EncodeGroup(b)
    else EncodeGroup(b[..3]) + Encode64(b[3..])
  }

  /** One group of four letters; padding is allowed only in the last group. */
  function DecodeGroup(t: ByteString, last: bool): Option<ByteString>
    requires |t| == 4
  {
    var v0, v1, v2, v3 := SextetValue(t[0]), SextetValue(t[1]), SextetValue(t[2]), SextetValue(t[3]);
    if v0 < 0 || v1 < 0 then None
    else if t[2] == PAD then
      if t[3] == PAD && last then Some([B0(v0, v1)]) else None
    else if v2 < 0 then None
    else if t[3] == PAD then
      if last then Some([B0(v0, v1), B1(v1, v2)]) else None
    else if v3 < 0 then None
    else Some([B0(v0, v1), B1(v1, v2), B2(v2, v3)])
  }

  function Decode64(t: ByteString): Option<ByteString> {
    if t == [] then Some([])
    else if |t| < 4 then None
    else match DecodeGroup(t[..4], |t| == 4)
      case None => None
      case Some(group) =>
        match Decode64(t[4..])
        case None => None
        case Some(rest) => Some(group + rest)
  }

  predicate IsNewline(c: byte) {
    c == 13 || c == 10
  }

  /** The decoder reads past line breaks, wherever they are. */
  function Unfolded(t: ByteString): ByteString {
    if t == [] then [] else if IsNewline(t[0]) then Unfolded(t[1..]) else [t[0]] + Unfolded(t[1..])
  }

  lemma {:induction false} UnfoldedAppend(t: ByteString, u: ByteString)
    ensures Unfolded(t + u) == Unfolded(t) + Unfolded(u)
  {
    if t == [] {
      assert t + u == u;
    } else {
      assert (t + u)[1..] == t[1..] + u;
      UnfoldedAppend(t[1..], u);
    }
  }

  lemma {:induction false} NothingToUnfold(t: ByteString)
    requires forall i | 0 <= i < |t| :: !IsNewline(t[i])
    ensures Unfolded(t) == t
  {
    if t != [] {
      NothingToUnfold(t[1..]);
    }
  }

  lemma GroupHasNoBreaks(b: ByteString)
    requires b != []
    ensures Unfolded(EncodeGroup(b)) == EncodeGroup(b)
  {
    NothingToUnfold(EncodeGroup(b));
  }

  lemma {:induction false} EncodedHasNoBreaks(b: ByteString)
    ensures Unfolded(Encode64(b)) == Encode64(b)
    decreases |b|
  {
    hide EncodeGroup;
    if b != [] {
      GroupHasNoBreaks(b);
      if |b| > 3 {
        GroupHasNoBreaks(b[..3]);
        EncodedHasNoBreaks(b[3..]);
        UnfoldedAppend(EncodeGroup(b[..3]), Encode64(b[3..]));
      }
    }
  }

  lemma SextetRoundTrip(v: int)
    requires 0 <= v < 64
    ensures SextetValue(Sextet(v)) == v && Sextet(v) != PAD
  {
    LastIndexFinds(Alphabet(), v);
  }

  lemma {:induction false} LastIndexFinds(s: ByteString, v: int)
    requires 0 <= v < |s| && forall j | v < j < |s| :: s[j] != s[v]
    ensures LastIndex(s, s[v]) == v
  {
    if v < |s| - 1 {
      LastIndexFinds(s[..|s| - 1], v);
    }
  }

  lemma JoinFirst(b0: byte, b1: byte)
    ensures B0(S0(b0), S1(b0, b1)) == b0
    ensures B0(S0(b0), L1(b0)) == b0
  {
    JoinHigh(b0 as int, b1 as int / 16);
    JoinHigh(b0 as int, 0);
  }

  lemma JoinSecond(b0: byte, b1: byte, b2: byte)
    ensures B1(S1(b0, b1), S2(b1, b2)) == b1
    ensures B1(S1(b0, b1), L2(b1)) == b1
  {
    JoinMiddle(b0 as int % 4, b1 as int, b2 as int / 64);
    JoinMiddle(b0 as int % 4, b1 as int, 0);
  }

  lemma JoinThird(b1: byte, b2: byte)
    ensures B2(S2(b1, b2), S3(b2)) == b2
  {
    JoinLow(b1 as int % 16, b2 as int);
  }

  lemma JoinHigh(b: int, low: int)
    requires 0 <= b < 256 && 0 <= low < 16
    ensures b / 4 * 4 + (b % 4 * 16 + low) / 16 == b
  {
  }

  lemma JoinMiddle(high: int, b: int, low: int)
    requires 0 <= high < 4 && 0 <= b < 256 && 0 <= low < 4
    ensures (high * 16 + b / 16) % 16 * 16 + (b % 16 * 4 + low) / 4 == b
  {
  }

  lemma JoinLow(high: int, b: int)
    requires 0 <= high < 16 && 0 <= b < 256
    ensures (high * 4 + b / 64) % 4 * 64 + b % 64 == b
  {
  }

  /** Decoding the letters of n bytes, given only that the sextets join back to those bytes. */
  lemma GroupOfLetters(t: ByteString, v: seq<int>, b: ByteString, last: bool)
    requires |t| == |v| == 4 && 1 <= |b| <= 3 && (|b| < 3 ==> last)
    requires forall i | 0 <= i < 4 :: 0 <= v[i] < 64
    requires forall i | 0 <= i <= |b| :: t[i] == Sextet(v[i])
    requires forall i | |b| < i < 4 :: t[i] == PAD
    requires B0(v[0], v[1]) == b[0]
    requires |b| > 1 ==> B1(v[1], v[2]) == b[1]
    requires |b| > 2 ==> B2(v[2], v[3]) == b[2]
    ensures DecodeGroup(t, last) == Some(b)
  {
    SextetRoundTrip(v[0]);
    SextetRoundTrip(v[1]);
    SextetRoundTrip(v[2]);
    SextetRoundTrip(v[3]);
    assert b == if |b| == 1 then [b[0]] else if |b| == 2 then [b[0], b[1]] else [b[0], b[1], b[2]];
  }

  lemma GroupRoundTrip(b: ByteString, last: bool)
    requires 1 <= |b| <= 3 && (|b| < 3 ==> last)
    ensures DecodeGroup(EncodeGroup(b), last) == Some(b)
  {
    hide Sextet, SextetValue, DecodeGroup, S0, S1, S2, S3, L1, L2, B0, B1, B2;
    var t := EncodeGroup(b);
    if |b| == 1 {
      JoinFirst(b[0], b[0]);
      GroupOfLetters(t, [S0(b[0]), L1(b[0]), L1(b[0]), L1(b[0])], b, last);
    } else if |b| == 2 {
      JoinFirst(b[0], b[1]);
      JoinSecond(b[0], b[1], b[1]);
      GroupOfLetters(t, [S0(b[0]), S1(b[0], b[1]), L2(b[1]), L2(b[1])], b, last);
    } else {
      JoinFirst(b[0], b[1]);
      JoinSecond(b[0], b[1], b[2]);
      JoinThird(b[1], b[2]);
      GroupOfLetters(t, [S0(b[0]), S1(b[0], b[1]), S2(b[1], b[2]), S3(b[2])], b, last);
    }
  }

  lemma {:induction false} Base64RoundTrip(b: ByteString)
    ensures Decode64(Encode64(b)) == Some(b)
    decreases |b|
  {
    if |b| > 3 {
      Base64RoundTrip(b[3..]);
      RoundTripStep(b[..3], b[3..]);
      assert b == b[..3] + b[3..];
    } else if b != [] {
      Base64RoundTrip([]);
      RoundTripStep(b, []);
      assert b == b + [];
    }
  }

  lemma RoundTripStep(first: ByteString, rest: ByteString)
    requires 1 <= |first| <= 3 && (|first| < 3 ==> rest == [])
    requires Decode64(Encode64(rest)) == Some(rest)
    ensures Decode64(Encode64(first + rest)) == Some(first + rest)
  {
    EncodeFirst(first, rest);
    GroupRoundTrip(first, Encode64(rest) == []);
    DecodeFirst(EncodeGroup(first), Encode64(rest), first, rest);
  }

  lemma EncodeFirst(first: ByteString, rest: ByteString)
    requires 1 <= |first| <= 3 && (|first| < 3 ==> rest == [])
    ensures Encode64(first + rest) == EncodeGroup(first) + Encode64(rest)
    ensures Encode64(rest) == [] <==> rest == []
  {
    var b := first + rest;
    if rest == [] {
      assert b == first;
    } else {
      assert b[..3] == first && b[3..] == rest;
    }
  }

  lemma DecodeFirst(group: ByteString, more: ByteString, first: ByteString, rest: ByteString)
    requires |group| == 4 && DecodeGroup(group, more == []) == Some(first)
    requires Decode64(more) == Some(rest)
    ensures Decode64(group + more) == Some(first + rest)
  {
    var t := group + more;
    assert t[..4] == group && t[4..] == more;
  }

  // ----- The format in literal numbers -----

  /** The letters, in order: A to Z, a to z, 0 to 9, minus and underscore. */
  lemma LettersAre(v: int)
    requires 0 <= v < 64
    ensures v < 26 ==> Sextet(v) as int == 65 + v
    ensures 26 <= v < 52 ==> Sextet(v) as int == 71 + v
    ensures 52 <= v < 62 ==> Sextet(v) as int == v - 4
    ensures v == 62 ==> Sextet(v) == 45
    ensures v == 63 ==> Sextet(v) == 95
  {
  }

  /** The values of a group's letters, read in base 64, are its bytes, read in base 256, filled up with zero bits. */
  lemma GroupsOfSix(b0: byte, b1: byte, b2: byte)
    ensures S0(b0) * 262144 + S1(b0, b1) * 4096 + S2(b1, b2) * 64 + S3(b2) == b0 as int * 65536 + b1 as int * 256 + b2 as int
    ensures S0(b0) * 4096 + S1(b0, b1) * 64 + L2(b1) == (b0 as int * 256 + b1 as int) * 4
    ensures S0(b0) * 64 + L1(b0) == b0 as int * 16
  {
  }

  /** One to three bytes are two to four letters, filled up to four with =. */
  lemma GroupIs(b: ByteString)
    ensures |b| == 1 ==> EncodeGroup(b) == [Sextet(S0(b[0])), Sextet(L1(b[0])), 61, 61]
    ensures |b| == 2 ==> EncodeGroup(b) == [Sextet(S0(b[0])), Sextet(S1(b[0], b[1])), Sextet(L2(b[1])), 61]
    ensures |b| == 3 ==>
      EncodeGroup(b) == [Sextet(S0(b[0])), Sextet(S1(b[0], b[1])), Sextet(S2(b[1], b[2])), Sextet(S3(b[2]))]
  {
  }

  lemma GroupsInTurn(b: ByteString)
    ensures Encode64([]) == []
    ensures |b| > 3 ==> Encode64(b) == EncodeGroup(b[..3]) + Encode64(b[3..])
    ensures 1 <= |b| <= 3 ==> Encode64(b) == EncodeGroup(b)
  {
  }

  /** The text: the bits of the score in decimal, an A, and the member's letters. Below zero the bits start at 2^63. */
  lemma TextIs(c: Cursor)
    requires IsDouble(c.score)
    ensures Text(c) ==
      Digits(if c.score >= 0 then c.score else 9223372036854775808 - c.score) + [65] + Encode64(c.member)
  {
  }

  // ----- The cursor text -----

  function Text(c: Cursor): ByteString
    requires IsDouble(c.score)
  {
    Digits(FloatBits(c.score)) + [LETTER_A] + Encode64(c.member)
  }

  /** The index of the first letter A, or |s|. */
  function SplitAt(s: ByteString): (i: nat)
    ensures i <= |s|
    ensures forall j | 0 <= j < i :: s[j] != LETTER_A
    ensures i < |s| ==> s[i] == LETTER_A
  {
    if s == [] || s[0] == LETTER_A then 0 else 1 + SplitAt(s[1..])
  }

  function ParseUint64(s: ByteString): Option<nat> {
    if s == [] || !AllDigits(s) || Value(s) >= 2 * SIGN_BIT then None else Some(Value(s))
  }

  function ParseText(s: ByteString): Option<Cursor> {
    var i := SplitAt(s);
    if i == |s| then None
    else match ParseUint64(s[..i])
      case None => None
      case Some(bits) =>
        match Decode64(Unfolded(s[i + 1..]))
        case None => None
        case Some(member) => Some(Entry(FromBits(bits), member))
  }

  class CursorObject {
    var score: Score
    var member: ByteString

    constructor ()
      ensures score == 0 && member == []
    {
      score, member := 0, [];
    }

    /** On success the fields hold the parsed cursor; on an error they are untouched. */
    method Parse(s: ByteString) returns (ok: bool)
      modifies this
      ensures ok <==> ParseText(s).Some?
      ensures ok ==> Entry(score, member) == ParseText(s).value
      ensures !ok ==> score == old(score) && member == old(member)
    {
      var i := SplitAt(s);
      if i == |s| {
        return false;
      }
      var bits := ParseUint64(s[..i]);
      if bits.None? {
        return false;
      }
      var decoded := Decode64(Unfolded(s[i + 1..]));
      if decoded.None? {
        return false;
      }
      score, member := FromBits(bits.value), decoded.value;
      return true;
    }
  }

  /** A cursor's text is parsed back even if line breaks were put anywhere into its base64 part. */
  lemma FoldedRoundTrip(c: Cursor, folded: ByteString)
    requires IsDouble(c.score) && Unfolded(folded) == Encode64(c.member)
    ensures ParseText(Digits(FloatBits(c.score)) + [LETTER_A] + folded) == Some(c)
  {
    var bits := FloatBits(c.score);
    FloatRoundTrip(c.score);
    ValueOfDigits(bits);
    Base64RoundTrip(c.member);
    SplitText(Digits(bits), folded);
    hide Digits, FloatBits, FromBits, SplitAt, Encode64, Decode64, Unfolded;
  }

  lemma FloatRoundTrip(score: Score)
    requires IsDouble(score)
    ensures FromBits(FloatBits(score)) == score
  {
  }

  lemma SplitText(digits: ByteString, rest: ByteString)
    requires AllDigits(digits)
    ensures var s := digits + [LETTER_A] + rest;
            SplitAt(s) == |digits| < |s| && s[..|digits|] == digits && s[|digits| + 1..] == rest
  {
    var s := digits + [LETTER_A] + rest;
    assert forall j | 0 <= j < |digits| :: s[j] == digits[j];
    assert s[|digits|] == LETTER_A;
    hide SplitAt;
  }

  /** Every cursor survives its text form, whatever bytes its member holds. */
  lemma CursorRoundTrip(c: Cursor)
    requires IsDouble(c.score)
    ensures ParseText(Text(c)) == Some(c)
  {
    EncodedHasNoBreaks(c.member);
    FoldedRoundTrip(c, Encode64(c.member));
  }

  // ----- What is refused -----

  predicate IsLetter(c: byte) {
    65 <= c <= 90 || 97 <= c <= 122 || 48 <= c <= 57 || c == 45 || c == 95
  }

  lemma {:induction false} LastIndexMiss(s: ByteString, c: byte)
    ensures LastIndex(s, c) >= 0 <==> exists i :: 0 <= i < |s| && s[i] == c
  {
    if s != [] && s[|s| - 1] != c {
      var rest := s[..|s| - 1];
      LastIndexMiss(rest, c);
      if i :| 0 <= i < |s| && s[i] == c { assert rest[i] == c; }
      if i :| 0 <= i < |rest| && rest[i] == c { assert s[i] == c; }
    }
  }

  lemma LettersOnly(c: byte)
    ensures SextetValue(c) >= 0 <==> IsLetter(c)
  {
    LastIndexMiss(Alphabet(), c);
    if IsLetter(c) {
      var v: int := if 65 <= c <= 90 then c as int - 65 else if 97 <= c <= 122 then c as int - 71
                    else if 48 <= c <= 57 then c as int + 4 else if c == 45 then 62 else 63;
      assert Alphabet()[v] == c;
    }
  }

  lemma GroupAccepted(t: ByteString, last: bool)
    requires |t| == 4
    ensures DecodeGroup(t, last).Some? <==>
      && IsLetter(t[0]) && IsLetter(t[1])
      && ((IsLetter(t[2]) && (IsLetter(t[3]) || (t[3] == 61 && last))) || (t[2] == 61 && t[3] == 61 && last))
  {
    LettersOnly(t[0]);
    LettersOnly(t[1]);
    LettersOnly(t[2]);
    LettersOnly(t[3]);
    hide SextetValue;
  }

  /** Letters only, but for one or two = at the end; the number of bytes is a multiple of four. */
  predicate WellFormed64(t: ByteString) {
    && |t| % 4 == 0
    && forall i | 0 <= i < |t| :: IsLetter(t[i]) || (t[i] == 61 && (i == |t| - 1 || (i == |t| - 2 && t[|t| - 1] == 61)))
  }

  /** Exactly such texts are decoded. */
  lemma {:induction false} DecodesIff(t: ByteString)
    ensures Decode64(t).Some? <==> WellFormed64(t)
    decreases |t|
  {
    hide DecodeGroup;
    if |t| >= 4 {
      GroupAccepted(t[..4], |t| == 4);
      DecodesIff(t[4..]);
      hide Decode64, IsLetter;
      assert forall i | 0 <= i < |t| - 4 :: t[4..][i] == t[i + 4];
      if WellFormed64(t) {
        assert WellFormed64(t[4..]);
      }
      if WellFormed64(t[4..]) && DecodeGroup(t[..4], |t| == 4).Some? {
        forall i | 0 <= i < |t|
          ensures IsLetter(t[i]) || (t[i] == 61 && (i == |t| - 1 || (i == |t| - 2 && t[|t| - 1] == 61)))
        {
          if i >= 4 { assert t[4..][i - 4] == t[i]; }
        }
      }
    }
  }

  /** Carriage returns and line feeds are left out, and nothing else. */
  lemma UnfoldedIs(c: byte, t: ByteString)
    ensures Unfolded([c] + t) == if c == 13 || c == 10 then Unfolded(t) else [c] + Unfolded(t)
    ensures Unfolded([]) == []
  {
    assert ([c] + t)[1..] == t;
  }

  /** A text is a cursor's exactly if an A separates decimal digits of a number below 2^64 from well-formed base64. */
  lemma ParsesIff(digits: ByteString, t: ByteString)
    requires forall i | 0 <= i < |digits| :: digits[i] != 65
    ensures ParseText(digits) == None
    ensures ParseText(digits + [65] + t).Some? <==>
      digits != [] && AllDigits(digits) && Value(digits) < 18446744073709551616 && WellFormed64(Unfolded(t))
  {
    DecodesIff(Unfolded(t));
    SplitAny(digits, t);
    hide SplitAt, Decode64, WellFormed64, Unfolded, FromBits;
  }

  lemma SplitAny(digits: ByteString, t: ByteString)
    requires forall i | 0 <= i < |digits| :: digits[i] != 65
    ensures SplitAt(digits) == |digits|
    ensures var s := digits + [65] + t;
            SplitAt(s) == |digits| < |s| && s[..|digits|] == digits && s[|digits| + 1..] == t
  {
    var s := digits + [65] + t;
    assert forall j | 0 <= j < |digits| :: s[j] == digits[j];
    assert s[|digits|] == 65;
    var i, j := SplitAt(digits), SplitAt(s);
    hide SplitAt;
    assert i == |digits|;
  }
}
