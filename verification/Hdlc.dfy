/**
 Framing in the download protocol (stream_download_protocol.c): octet stuffing as in RFC 1662,
 section 4.2, and the unstuffing that works in place on the receive buffer.
 */
module Hdlc {
  import opened Crc

  const FLAG: Byte := 0x7e
  const ESCAPE: Byte := 0x7d

  function Toggle(b: Byte): Byte {
    b ^ 0x20
  }

  predicate Special(b: Byte) {
    b == FLAG || b == ESCAPE
  }

  function StuffByte(b: Byte): seq<Byte> {
    if Special(b) then [ESCAPE, Toggle(b)] else [b]
  }

  /** The two special bytes are sent as two bytes each, all others as they are. */
  lemma StuffedAs(b: Byte)
    ensures StuffByte(b) == if b == 0x7e then [0x7d, 0x5e] else if b == 0x7d then [0x7d, 0x5d] else [b]
  {
  }

  function Stuff(data: seq<Byte>): seq<Byte> {
    if data == [] then [] else Stuff(data[..|data| - 1]) + StuffByte(data[|data| - 1])
  }

  function Specials(data: seq<Byte>): nat {
    if data == [] then 0 else Specials(data[..|data| - 1]) + if Special(data[|data| - 1]) then 1 else 0
  }

  /** A packet on the wire. */
  function Frame(data: seq<Byte>): seq<Byte> {
    [FLAG] + Stuff(data) + [FLAG]
  }

  lemma {:induction false} StuffLength(data: seq<Byte>)
    ensures |Stuff(data)| == |data| + Specials(data)
  {
    if data != [] {
      StuffLength(data[..|data| - 1]);
    }
  }

  function StripFlags(s: seq<Byte>): seq<Byte> {
    if s != [] && s[0] == FLAG then StripFlags(s[1..]) else s
  }

  /** Every escape character is dropped, and the first other byte behind it toggled. */
  function Unstuff(s: seq<Byte>, escaped: bool): seq<Byte> {
    if s == [] then []
    else if s[0] == ESCAPE then Unstuff(s[1..], true)
    else [if escaped then Toggle(s[0]) else s[0]] + Unstuff(s[1..], false)
  }

  function Received(s: seq<Byte>): seq<Byte> {
    Unstuff(StripFlags(s), false)
  }

  lemma Toggles(b: Byte)
    ensures Toggle(Toggle(b)) == b && (Special(b) ==> !Special(Toggle(b)))
  {
  }

  lemma {:induction false} UnstuffStuffed(data: seq<Byte>, rest: seq<Byte>)
    ensures Unstuff(Stuff(data) + rest, false) == data + Unstuff(rest, false)
    decreases |data|
  {
    if data == [] {
      assert Stuff(data) + rest == rest;
    } else {
      hide Unstuff, StuffByte, Stuff;
      var front, b := data[..|data| - 1], data[|data| - 1];
      UnstuffStuffed(front, StuffByte(b) + rest);
      UnstuffByte(b, rest);
      StuffLast(data);
      Regroup(Stuff(front), StuffByte(b), rest);
      Regroup(front, [b], Unstuff(rest, false));
      assert data == front + [b];
    }
  }

  lemma Regroup(a: seq<Byte>, b: seq<Byte>, c: seq<Byte>)
    ensures (a + b) + c == a + (b + c)
  {
  }

  lemma StuffLast(data: seq<Byte>)
    requires data != []
    ensures Stuff(data) == Stuff(data[..|data| - 1]) + StuffByte(data[|data| - 1])
  {
  }

  lemma UnstuffByte(b: Byte, rest: seq<Byte>)
    ensures Unstuff(StuffByte(b) + rest, false) == [b] + Unstuff(rest, false)
  {
    Toggles(b);
    hide Toggle;
    if Special(b) {
      var s := StuffByte(b) + rest;
      assert s[1..][0] == Toggle(b) && s[1..][1..] == rest;
    } else {
      assert ([b] + rest)[1..] == rest;
    }
  }

  /** The round trip: a non-empty packet comes back, followed by the closing flag. */
  lemma RoundTrip(data: seq<Byte>)
    requires data != []
    ensures Received(Frame(data)) == data + [FLAG]
  {
    var s := Stuff(data) + [FLAG];
    StuffedFirst(data);
    assert s[0] == Stuff(data)[0] && Frame(data) == [FLAG] + s;
    Stripped(Frame(data), s);
    UnstuffStuffed(data, [FLAG]);
    Flags();
  }

  lemma Flags()
    ensures Unstuff([FLAG], false) == [FLAG]
  {
    assert [FLAG][1..] == [];
  }

  lemma Stripped(frame: seq<Byte>, s: seq<Byte>)
    requires frame == [FLAG] + s && s != [] && s[0] != FLAG
    ensures StripFlags(frame) == s
  {
    assert frame[1..] == s;
  }

  lemma {:induction false} StuffedFirst(data: seq<Byte>)
    requires data != []
    ensures Stuff(data) != [] && Stuff(data)[0] != FLAG
  {
    if |data| > 1 {
      StuffedFirst(data[..|data| - 1]);
    } else {
      assert Stuff(data[..0]) == [];
      Toggles(data[0]);
    }
  }

  /** No flag inside a frame, so the frames of a stream can be told apart. */
  lemma {:induction false} NoFlagInside(data: seq<Byte>)
    ensures FLAG !in Stuff(data)
  {
    if data != [] {
      NoFlagInside(data[..|data| - 1]);
      Toggles(data[|data| - 1]);
    }
  }

  /**
   In the middle of unstuffing `s` in place: `all[..n]` is what has been produced, and from `i` on
   the buffer still holds the rest of `s` and the bytes behind it.
   */
  ghost predicate Unstuffing(all: seq<Byte>, s: seq<Byte>, tail: seq<Byte>, n: nat, i: nat, escaped: bool) {
    && n <= i && |all| - |tail| - |s| <= i <= |all| - |tail|
    && all[i..] == s[i - (|all| - |tail| - |s|)..] + tail
    && all[..n] + Unstuff(s[i - (|all| - |tail| - |s|)..], escaped) == Unstuff(s, false)
  }

  lemma UnstuffingStart(all: seq<Byte>, s: seq<Byte>, tail: seq<Byte>, i: nat)
    requires |all| == i + |s| + |tail| && all[i..] == s + tail
    ensures Unstuffing(all, s, tail, 0, i, false)
  {
    assert s[0..] == s && all[..0] + Unstuff(s, false) == Unstuff(s, false);
  }

  lemma UnstuffingNext(all: seq<Byte>, s: seq<Byte>, tail: seq<Byte>, n: nat, i: nat, escaped: bool, next: seq<Byte>)
    requires Unstuffing(all, s, tail, n, i, escaped) && i < |all| - |tail| && |next| == |all|
        && next[i + 1..] == all[i + 1..]
    ensures all[i] == ESCAPE && next == all ==> Unstuffing(next, s, tail, n, i + 1, true)
    ensures all[i] != ESCAPE && next[..n + 1] == all[..n] + [if escaped then Toggle(all[i]) else all[i]]
      ==> Unstuffing(next, s, tail, n + 1, i + 1, false)
  {
    hide Toggle, ESCAPE;
    var k := i - (|all| - |tail| - |s|);
    var left := s[k..];
    assert all[i] == left[0] && left[1..] == s[k + 1..] && all[i..][1..] == all[i + 1..];
    assert (left + tail)[1..] == s[k + 1..] + tail;
    var b := if escaped then Toggle(all[i]) else all[i];
    assert all[..n] + ([b] + Unstuff(s[k + 1..], false)) == all[..n] + [b] + Unstuff(s[k + 1..], false);
  }

  lemma UnstuffingEnd(all: seq<Byte>, s: seq<Byte>, tail: seq<Byte>, n: nat, i: nat, escaped: bool)
    requires Unstuffing(all, s, tail, n, i, escaped) && i == |all| - |tail|
    ensures n <= i && all[..n] == Unstuff(s, false) && all[i..] == tail
  {
  }

  /** Skips the flags a frame starts with: beyond `len`, if need be, and up to the end of the buffer. */
  method SkipFlags(buffer: array<Byte>, len: nat) returns (i: nat)
    requires len < buffer.Length
    ensures i <= buffer.Length && (i == buffer.Length <==> forall k | 0 <= k < buffer.Length :: buffer[k] == FLAG)
    ensures StripFlags(buffer[..len]) == if i < len then buffer[i..len] else []
  {
    ghost var s := buffer[..len];
    i := 0;
    while i < buffer.Length && buffer[i] == FLAG
      invariant i <= buffer.Length && forall k | 0 <= k < i :: buffer[k] == FLAG
      invariant StripFlags(s) == if i <= len then StripFlags(s[i..]) else []
    {
      i := i + 1;
    }
    if i <= len {
      assert buffer[i..len] == s[i..];
    }
  }

  /** Keeps one byte: it is toggled where it is, then copied down. */
  method CopyDown(buffer: array<Byte>, n: nat, i: nat, escape: bool)
    requires n <= i < buffer.Length
    modifies buffer
    ensures
      var all, next := old(buffer[..]), buffer[..];
      next[..n + 1] == all[..n] + [if escape then Toggle(all[i]) else all[i]] && next[i + 1..] == all[i + 1..]
  {
    hide Toggle;
    if escape {
      buffer[i] := Toggle(buffer[i]);
    }
    buffer[n] := buffer[i];
  }

  /**
   `remove_escape_hdlc_flag`: the write index never passes the read index. Behind a buffer of nothing
   but flags the program reads on, which is not part of the model.
   */
  method RemoveEscapes(buffer: array<Byte>, len: nat) returns (n: nat, overread: bool)
    requires len < buffer.Length
    modifies buffer
    ensures overread <==> len > 0 && forall k | 0 <= k < buffer.Length :: old(buffer[k]) == FLAG
    ensures n <= len && buffer[..n] == Received(old(buffer[..len]))
    ensures n > 0 ==> buffer[n] == 0
    ensures forall k | len < k < buffer.Length :: buffer[k] == old(buffer[k])
  {
    hide Toggle, Unstuff, StripFlags, FLAG, ESCAPE, Unstuffing;
    n, overread := 0, false;
    if len == 0 {
      NothingUnstuffed(buffer[..len]);
      return;
    }
    var i := SkipFlags(buffer, len);
    NothingUnstuffed([]);
    if i == buffer.Length {
      overread := true;
      return;
    }
    if i == len {
      return;
    }
    if i > len {
      buffer[0] := 0;
      return;
    }
    n := UnstuffFrom(buffer, i, len);
  }

  /** Unstuffs what is between `from` and `len` down to the front of the buffer. */
  method UnstuffFrom(buffer: array<Byte>, from: nat, len: nat) returns (n: nat)
    requires from < len < buffer.Length
    modifies buffer
    ensures n <= len && buffer[..n] == Unstuff(old(buffer[from..len]), false) && buffer[n] == 0
    ensures forall k | len < k < buffer.Length :: buffer[k] == old(buffer[k])
  {
    hide Toggle, Unstuff, FLAG, ESCAPE, Unstuffing;
    var i := from;
    n := 0;
    ghost var s, tail := buffer[i..len], buffer[len..];
    var escape := false;
    assert buffer[..][i..] == s + tail;
    UnstuffingStart(buffer[..], s, tail, i);
    while i < len
      invariant n <= i <= len && Unstuffing(buffer[..], s, tail, n, i, escape)
    {
      ghost var all := buffer[..];
      if buffer[i] == ESCAPE {
        UnstuffingNext(all, s, tail, n, i, escape, all);
        escape := true;
      } else {
        CopyDown(buffer, n, i, escape);
        UnstuffingNext(all, s, tail, n, i, escape, buffer[..]);
        n := n + 1;
        escape := false;
      }
      i := i + 1;
    }
    UnstuffingEnd(buffer[..], s, tail, n, i, escape);
    assert forall k | len < k < buffer.Length :: buffer[k] == buffer[..][len..][k - len] == tail[k - len];
    buffer[n] := 0;
  }

  lemma NothingUnstuffed(s: seq<Byte>)
    requires s == []
    ensures StripFlags(s) == [] && Unstuff(s, false) == Unstuff(s, true) == []
  {
  }
}
