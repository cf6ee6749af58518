/**
 * Dynamic strings: a length, the free space behind it, and a buffer that ends in a zero byte. On
 * top of them, quoting a byte string and splitting a line into quoted arguments.
 */
module Sds {
  import opened Bytes

  const MAX_PREALLOC: nat := 1024 * 1024

  class SdsString {
    var len: nat
    var free: nat
    var buf: array<byte>

    ghost predicate Valid()
      reads this, buf
    {
      buf.Length == len + free + 1 && buf[len] == 0
    }

    ghost function Contents(): ByteString
      requires Valid()
      reads this, buf
    {
      buf[..len]
    }

    constructor (init: ByteString)
      ensures Valid() && fresh(buf) && Contents() == init && free == 0
    {
      len, free := |init|, 0;
      buf := new byte[|init| + 1](i => if 0 <= i < |init| then init[i] else 0);
    }

    /** Make room for addlen more bytes; the contents stay as they are. */
    method MakeRoomFor(addlen: nat)
      requires Valid()
      modifies this
      ensures Valid() && (buf == old(buf) || fresh(buf))
      ensures free >= addlen && Contents() == old(Contents())
      ensures old(free) >= addlen ==> free == old(free)
      ensures old(free) < addlen ==>
        free == if len + addlen < 1048576 then len + 2 * addlen else addlen + 1048576
    {
      if free >= addlen {
        return;
      }
      var newlen := len + addlen;
      if newlen < MAX_PREALLOC {
        newlen := newlen * 2;
      } else {
        newlen := newlen + MAX_PREALLOC;
      }
      var s := buf;
      var l := len;
      buf := new byte[newlen + 1](i requires 0 <= i < newlen + 1 reads s => if i <= l && i < s.Length then s[i] else 0);
      free := newlen - len;
      assert forall i | 0 <= i <= len :: buf[i] == old(buf[i]);
    }

    method CatLen(t: ByteString)
      requires Valid()
      modifies this, buf
      ensures Valid() && (buf == old(buf) || fresh(buf))
      ensures Contents() == old(Contents()) + t
    {
      MakeRoomFor(|t|);
      ghost var before := buf[..len];
      for i := 0 to |t|
        modifies buf
        invariant buf[..len + i] == before + t[..i]
      {
        buf[len + i] := t[i];
      }
      assert t[..|t|] == t;
      len := len + |t|;
      free := free - |t|;
      buf[len] := 0;
    }

    /** Keep only the bytes from start to end, both included; negative positions count from the end. */
    method Range(start: int, end: int)
      requires Valid()
      modifies this, buf
      ensures Valid() && buf == old(buf)
      ensures Contents() == Slice(old(Contents()), start, end)
    {
      hide Slice;
      SliceIs(Contents(), start, end);
      var from, to := start, end;
      if len == 0 {
        return;
      }
      if from < 0 {
        from := len + from;
        if from < 0 { from := 0; }
      }
      if to < 0 {
        to := len + to;
        if to < 0 { to := 0; }
      }
      var newlen := if from > to then 0 else to - from + 1;
      if newlen != 0 {
        if from >= len {
          newlen := 0;
        } else if to >= len {
          to := len - 1;
          newlen := if from > to then 0 else to - from + 1;
        }
      } else {
        from := 0;
      }
      ghost var kept := Slice(Contents(), start, end);
      assert |kept| == newlen;
      assert newlen != 0 ==> 0 <= from && from + newlen <= len;
      assert newlen != 0 ==> forall k | 0 <= k < newlen :: kept[k] == buf[from + k];
      if from != 0 && newlen != 0 {
        MoveDown(from, newlen);
      }
      assert forall k | 0 <= k < newlen :: kept[k] == buf[k];
      buf[newlen] := 0;
      free := free + (len - newlen);
      len := newlen;
    }

    /** memmove n bytes from a position down to the front. */
    method MoveDown(from: nat, n: nat)
      requires from + n < buf.Length
      modifies buf
      ensures forall k | 0 <= k < n :: buf[k] == old(buf[from + k])
    {
      ghost var before := buf[..];
      for i := 0 to n
        invariant forall k | 0 <= k < i :: buf[k] == before[from + k]
        invariant forall k | i <= k < buf.Length :: buf[k] == before[k]
      {
        buf[i] := buf[from + i];
      }
    }
  }

  /** The position a possibly negative index means in a string of the given length. */
  function Position(length: nat, i: int): nat {
    if i >= 0 then i else if length + i < 0 then 0 else length + i
  }

  function Slice(s: ByteString, start: int, end: int): ByteString {
    var from, to := Position(|s|, start), Position(|s|, end);
    if from > to || from >= |s| then [] else if to >= |s| then s[from..] else s[from..to + 1]
  }

  lemma SliceIs(s: ByteString, start: int, end: int)
    ensures var from, to := Position(|s|, start), Position(|s|, end);
            var t := Slice(s, start, end);
            if from > to || from >= |s| then t == []
            else
              && |t| == (if to >= |s| then |s| else to + 1) - from
              && forall k | 0 <= k < |t| :: t[k] == s[from + k]
  {
  }

  // ----- Quoting -----

  const QUOTE: byte := 34
  const APOSTROPHE: byte := 39
  const BACKSLASH: byte := 92
  const SPACE: byte := 32
  const LETTER_X: byte := 120

  /** Printable in the C locale. */
  predicate IsPrint(c: byte) {
    32 <= c <= 126
  }

  predicate IsSpace(c: byte) {
    c == 32 || 9 <= c <= 13
  }

  function HexDigit(v: int): byte
    requires 0 <= v < 16
  {
    if v < 10 then (48 + v) as byte else (97 + v - 10) as byte
  }

  predicate IsHexDigit(c: byte) {
    48 <= c <= 57 || 97 <= c <= 102 || 65 <= c <= 70
  }

  function HexValue(c: byte): (v: int)
    ensures 0 <= v < 16
  {
    if 48 <= c <= 57 then c as int - 48
    else if 97 <= c <= 102 then c as int - 97 + 10
    else if 65 <= c <= 70 then c as int - 65 + 10
    else 0
  }

  /** How one byte is written between quotes. */
  function Escape(c: byte): ByteString {
    if c == BACKSLASH || c == QUOTE then [BACKSLASH, c]
    else if c == 10 then [BACKSLASH, 110]
    else if c == 13 then [BACKSLASH, 114]
    else if c == 9 then [BACKSLASH, 116]
    else if c == 7 then [BACKSLASH, 97]
    else if c == 8 then [BACKSLASH, 98]
    else if IsPrint(c) then [c]
    else [BACKSLASH, LETTER_X, HexDigit(c as int / 16), HexDigit(c as int % 16)]
  }

  function EscapeAll(t: ByteString): ByteString {
    if t == [] then [] else EscapeAll(t[..|t| - 1]) + Escape(t[|t| - 1])
  }

  function Quoted(t: ByteString): ByteString {
    [QUOTE] + EscapeAll(t) + [QUOTE]
  }

  /** Append the quoted form of p. */
  method CatRepr(s: SdsString, p: ByteString)
    requires s.Valid()
    modifies s, s.buf
    ensures s.Valid() && (s.buf == old(s.buf) || fresh(s.buf))
    ensures s.Contents() == old(s.Contents()) + Quoted(p)
  {
    hide Escape;
    ghost var before := s.Contents();
    s.CatLen([QUOTE]);
    for i := 0 to |p|
      invariant s.Valid() && (s.buf == old(s.buf) || fresh(s.buf))
      invariant s.Contents() == before + [QUOTE] + EscapeAll(p[..i])
    {
      assert p[..i + 1][..i] == p[..i];
      s.CatLen(Escape(p[i]));
    }
    assert p[..|p|] == p;
    s.CatLen([QUOTE]);
    assert s.Contents() == before + Quoted(p);
  }
}
